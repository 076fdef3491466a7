/** The release commands as changes of the repository: release branches carrying a version, and tags. */
module ReleaseTrain {
  import opened Versions

  /** A release line, named after the final release it is to end in. */
  datatype Line = Line(x: nat, y: nat, z: nat)

  function LineOf(v: Version): Line {
    Line(Segment(v.release, 0), Segment(v.release, 1), Segment(v.release, 2))
  }

  function Final(line: Line): Version {
    Plain(line.x, line.y, line.z, None)
  }

  function Candidate(line: Line, n: nat): Version {
    Plain(line.x, line.y, line.z, Some(Pre(Rc, n)))
  }

  function Candidates(line: Line, n: nat): seq<Version> {
    if n == 0 then [] else Candidates(line, n - 1) + [Candidate(line, n)]
  }

  /** The tags of one line, in the order in which they were pushed. */
  function TagsOf(tags: seq<Version>, line: Line): seq<Version> {
    if tags == [] then []
    else
      TagsOf(tags[..|tags| - 1], line)
      + if LineOf(tags[|tags| - 1]) == line then [tags[|tags| - 1]] else []
  }

  lemma {:induction false} TagsOfPushed(tags: seq<Version>, v: Version, line: Line)
    ensures TagsOf(tags + [v], line) == if LineOf(v) == line then TagsOf(tags, line) + [v] else TagsOf(tags, line)
  {
    assert (tags + [v])[..|tags|] == tags;
    assert TagsOf(tags, line) + [] == TagsOf(tags, line);
  }

  lemma {:induction false} TagsOfAre(tags: seq<Version>, line: Line)
    ensures forall v :: v in TagsOf(tags, line) <==> v in tags && LineOf(v) == line
  {
    if tags != [] {
      TagsOfAre(tags[..|tags| - 1], line);
      assert forall v :: v in tags <==> v in tags[..|tags| - 1] || v == tags[|tags| - 1];
    }
  }

  lemma {:induction false} CandidatesAre(line: Line, n: nat)
    ensures |Candidates(line, n)| == n
    ensures forall i | 0 <= i < n :: Candidates(line, n)[i] == Candidate(line, i + 1)
    ensures forall v :: v in Candidates(line, n) <==> exists i: nat :: 1 <= i <= n && v == Candidate(line, i)
  {
    if n > 0 {
      CandidatesAre(line, n - 1);
      assert Candidates(line, n)[n - 1] == Candidate(line, n);
    }
  }

  /** What the tags of a line are when its branch carries the given version, if the branch exists. */
  ghost predicate OnTrack(line: Line, branch: Option<Version>, tags: seq<Version>) {
    match branch
    case None => tags == []
    case Some(v) =>
      || (v == Final(line) && tags == [])
      || (exists n: nat :: n >= 1 && v == Candidate(line, n) && tags == Candidates(line, n))
      || (v == Final(line) && exists n: nat :: n >= 1 && tags == Candidates(line, n) + [Final(line)])
  }

  function BranchOf(branches: map<Line, Version>, line: Line): Option<Version> {
    if line in branches then Some(branches[line]) else None
  }

  ghost predicate AllOnTrack(branches: map<Line, Version>, tags: seq<Version>) {
    forall line :: OnTrack(line, BranchOf(branches, line), TagsOf(tags, line))
  }

  /** A tag pushed for one line, together with its branch, leaves the others on track. */
  lemma {:induction false} PushKeepsOthers(branches: map<Line, Version>, tags: seq<Version>, line: Line, v: Version)
    requires AllOnTrack(branches, tags) && LineOf(v) == line
    requires OnTrack(line, Some(v), TagsOf(tags, line) + [v])
    ensures AllOnTrack(branches[line := v], tags + [v])
  {
    forall other
      ensures OnTrack(other, BranchOf(branches[line := v], other), TagsOf(tags + [v], other))
    {
      TagsOfPushed(tags, v, other);
      assert OnTrack(other, BranchOf(branches, other), TagsOf(tags, other));
    }
  }

  lemma {:induction false} CutKeepsTrack(branches: map<Line, Version>, tags: seq<Version>, line: Line)
    requires AllOnTrack(branches, tags)
    ensures line !in branches ==>
      Candidate(line, 1) !in tags && AllOnTrack(branches[line := Candidate(line, 1)], tags + [Candidate(line, 1)])
  {
    if line !in branches {
      assert OnTrack(line, None, TagsOf(tags, line));
      TagsOfAre(tags, line);
      assert Candidates(line, 1) == [] + [Candidate(line, 1)];
      PushKeepsOthers(branches, tags, line, Candidate(line, 1));
    }
  }

  /** The number of the release candidate that follows a version. */
  function Upcoming(v: Version): nat {
    if v.pre.Some? then v.pre.value.number + 1 else 1
  }

  lemma {:induction false} FixupKeepsTrack(branches: map<Line, Version>, tags: seq<Version>, line: Line)
    requires AllOnTrack(branches, tags) && line in branches
    ensures
      var v := Candidate(line, Upcoming(branches[line]));
      && Next(branches[line], PreRelease) == Bumped(v)
      && (v in tags <==> branches[line] == Final(line) && TagsOf(tags, line) != [])
      && (v !in tags ==>
        && branches[line] != v
        && AllOnTrack(branches[line := v], tags + [v])
        && TagsOf(tags + [v], line) == Candidates(line, Upcoming(branches[line])))
  {
    var n, current := Upcoming(branches[line]), TagsOf(tags, line);
    var v := Candidate(line, n);
    assert OnTrack(line, Some(branches[line]), current);
    TagsOfAre(tags, line);
    TagsOfPushed(tags, v, line);
    if branches[line] == Final(line) && current != [] {
      FirstCandidateTagged(line, current);
    } else {
      CandidatesAre(line, n - 1);
      assert current == Candidates(line, n - 1);
      assert v !in current;
      PushKeepsOthers(branches, tags, line, v);
    }
  }

  lemma {:induction false} FirstCandidateTagged(line: Line, current: seq<Version>)
    requires OnTrack(line, Some(Final(line)), current) && current != []
    ensures Candidate(line, 1) in current
  {
    var n: nat :| n >= 1 && current == Candidates(line, n) + [Final(line)];
    CandidatesAre(line, n);
    assert Candidates(line, n)[0] == current[0];
  }

  lemma {:induction false} HotfixKeepsTrack(branches: map<Line, Version>, tags: seq<Version>, line: Line)
    requires AllOnTrack(branches, tags) && line in branches
    ensures branches[line].pre.None? <==> branches[line] == Final(line)
    ensures LineOf(branches[line]) == line
    ensures
      var patch := Line(line.x, line.y, line.z + 1);
      && (branches[line] == Final(line) ==> Next(branches[line], Patch) == Bumped(Final(patch)))
      && (patch !in branches ==> Final(patch) !in tags && AllOnTrack(branches[patch := Final(patch)], tags))
  {
    var patch := Line(line.x, line.y, line.z + 1);
    assert OnTrack(line, BranchOf(branches, line), TagsOf(tags, line));
    assert OnTrack(patch, BranchOf(branches, patch), TagsOf(tags, patch));
    TagsOfAre(tags, patch);
    forall other
      ensures patch !in branches ==>
        OnTrack(other, BranchOf(branches[patch := Final(patch)], other), TagsOf(tags, other))
    {
      assert OnTrack(other, BranchOf(branches, other), TagsOf(tags, other));
    }
  }

  lemma {:induction false} PromoteKeepsTrack(branches: map<Line, Version>, tags: seq<Version>, line: Line)
    requires AllOnTrack(branches, tags) && line in branches
    ensures Next(branches[line], StripPreRelease) == Bumped(Final(line))
    ensures branches[line] != Final(line) ==>
      Final(line) !in tags && AllOnTrack(branches[line := Final(line)], tags + [Final(line)])
  {
    assert OnTrack(line, BranchOf(branches, line), TagsOf(tags, line));
    TagsOfAre(tags, line);
    if branches[line] != Final(line) {
      var n: nat :| n >= 1 && branches[line] == Candidate(line, n) && TagsOf(tags, line) == Candidates(line, n);
      CandidatesAre(line, n);
      PushKeepsOthers(branches, tags, line, Final(line));
    }
  }

  class Repository {
    var main: Version
    var branches: map<Line, Version>
    var tags: seq<Version>

    ghost predicate Valid()
      reads this
    {
      main.dev.Some? && AllOnTrack(branches, tags)
    }

    constructor (line: Line)
      ensures Valid() && tags == []
    {
      main := Plain(line.x, line.y, line.z, None).(dev := Some(0));
      branches, tags := map[], [];
    }

    /** Any change of main keeps it on some development version. */
    method MergeIntoMain(v: Version)
      requires Valid() && v.dev.Some?
      modifies this`main
      ensures Valid() && main == v
    {
      main := v;
    }

    /** Commits a version on a branch; git refuses a commit that changes nothing. */
    method CommitNewVersion(line: Line, newBranch: bool, v: Version) returns (committed: bool)
      modifies this`branches
      ensures committed == if newBranch then line !in old(branches) else BranchOf(old(branches), line) != Some(v)
      ensures branches == if committed then old(branches)[line := v] else old(branches)
    {
      if newBranch && line in branches {
        return false;
      }
      if !newBranch && line in branches && branches[line] == v {
        return false;
      }
      branches := branches[line := v];
      return true;
    }

    method PushTag(v: Version)
      requires v !in tags
      modifies this`tags
      ensures tags == old(tags) + [v]
    {
      tags := tags + [v];
    }

    /** Begins the line that main is heading for, with its first release candidate. */
    method CutRelease() returns (cut: bool)
      requires Valid()
      modifies this`branches, this`tags
      ensures Valid()
      ensures
        var line := LineOf(main);
        && cut == (line !in old(branches))
        && branches == (if cut then old(branches)[line := Candidate(line, 1)] else old(branches))
        && tags == (if cut then old(tags) + [Candidate(line, 1)] else old(tags))
    {
      var target := Final(LineOf(main));
      var candidate := NextVersion(target, PreRelease);
      CutKeepsTrack(branches, tags, LineOf(target));
      if candidate.version in tags {
        return false;
      }
      cut := CommitNewVersion(LineOf(target), true, candidate.version);
      if cut {
        PushTag(candidate.version);
      }
    }

    /** The next release candidate of the line whose branch is checked out: refused exactly after the final
        release. */
    method FixupRelease(line: Line) returns (fixed: bool)
      requires Valid() && line in branches
      modifies this`branches, this`tags
      ensures Valid()
      ensures line in old(branches) && fixed == !(old(branches)[line] == Final(line) && TagsOf(old(tags), line) != [])
      ensures fixed ==>
        var n := Upcoming(old(branches)[line]);
        && branches == old(branches)[line := Candidate(line, n)]
        && tags == old(tags) + [Candidate(line, n)]
        && TagsOf(tags, line) == Candidates(line, n)
      ensures !fixed ==> tags == old(tags) && branches == old(branches)
    {
      FixupKeepsTrack(branches, tags, line);
      var candidate := NextVersion(branches[line], PreRelease);
      if candidate.version in tags {
        return false;
      }
      fixed := CommitNewVersion(line, false, candidate.version);
      PushTag(candidate.version);
    }

    /** Begins a patch line on top of a released one; nothing is tagged yet. */
    method HotfixRelease(line: Line) returns (begun: bool)
      requires Valid() && line in branches
      modifies this`branches
      ensures Valid()
      ensures
        var patch := Line(line.x, line.y, line.z + 1);
        && line in old(branches)
        && begun == (old(branches)[line] == Final(line) && patch !in old(branches))
        && branches == if begun then old(branches)[patch := Final(patch)] else old(branches)
    {
      HotfixKeepsTrack(branches, tags, line);
      if branches[line].pre.Some? {
        return false;
      }
      var next := NextVersion(branches[line], Patch);
      if next.version in tags || LineOf(next.version) in branches {
        return false;
      }
      begun := CommitNewVersion(LineOf(next.version), true, next.version);
    }

    /** Turns the line's last release candidate into the final release. */
    method PromoteRelease(line: Line) returns (promoted: bool)
      requires Valid() && line in branches
      modifies this`branches, this`tags
      ensures Valid()
      ensures line in old(branches) && promoted == (old(branches)[line] != Final(line))
      ensures branches == if promoted then old(branches)[line := Final(line)] else old(branches)
      ensures tags == if promoted then old(tags) + [Final(line)] else old(tags)
    {
      PromoteKeepsTrack(branches, tags, line);
      var release := NextVersion(branches[line], StripPreRelease);
      promoted := CommitNewVersion(line, false, release.version);
      if promoted {
        PushTag(release.version);
      }
    }
  }

  // ---------------------------------------------------------------- what every history of tags looks like

  predicate Climbing(tags: seq<Version>) {
    forall i, j | 0 <= i < j < |tags| :: ComparePep440(tags[i], tags[j]) == Less
  }

  /** Both convert, and the first comes before the second. */
  predicate SemverLess(a: Version, b: Version) {
    && Pep440ToSemver(a).Converted? && Pep440ToSemver(b).Converted?
    && CompareSemver(Pep440ToSemver(a).version, Pep440ToSemver(b).version) == Less
  }

  predicate ClimbingForElectron(tags: seq<Version>) {
    forall i, j | 0 <= i < j < |tags| :: SemverLess(tags[i], tags[j])
  }

  /** Whatever commands were given in whatever order, the tags of a line are rc1 up to some rcN and then at most one
      final release, and each is newer than those before it, for Python and for Electron. */
  lemma {:induction false} TagsOfALine(branches: map<Line, Version>, tags: seq<Version>, line: Line)
    requires AllOnTrack(branches, tags)
    ensures exists n: nat ::
      TagsOf(tags, line) == Candidates(line, n) || (n >= 1 && TagsOf(tags, line) == Candidates(line, n) + [Final(line)])
    ensures Climbing(TagsOf(tags, line)) && ClimbingForElectron(TagsOf(tags, line))
  {
    var current := TagsOf(tags, line);
    assert OnTrack(line, BranchOf(branches, line), current);
    if current == [] {
      assert current == Candidates(line, 0);
    }
    var n: nat :| current == Candidates(line, n) || (n >= 1 && current == Candidates(line, n) + [Final(line)]);
    CandidatesAre(line, n);
    forall i, j | 0 <= i < j < |current|
      ensures ComparePep440(current[i], current[j]) == Less
      ensures SemverLess(current[i], current[j])
    {
      assert current[i] == Candidate(line, i + 1);
      assert current[j] == if j < n then Candidate(line, j + 1) else Final(line);
      ReleasesAgree([line.x, line.y, line.z], [line.x, line.y, line.z]);
      ConversionEmbedsReleases(current[i], current[j]);
    }
  }

  /** The branch that cutting a release looks for is named after the candidate and is none that any cut creates:
      a version begins with a digit. */
  lemma {:induction false} CutLooksForNoCreatedBranch(candidate: string, release: string)
    requires candidate != "" && '0' <= candidate[0] <= '9'
    ensures "release/" + candidate != "release/sculptor-v" + release
  {
    assert ("release/" + candidate)[8] == candidate[0];
    assert ("release/sculptor-v" + release)[8] == 's';
  }
}
