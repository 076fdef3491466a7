/** Versions in the order of PEP 440 and their conversion to Semantic Versioning 2.0.0. */
module Versions {

  datatype Option<+T> = None | Some(value: T)

  datatype Order = Less | Equal | Greater

  datatype Letter = A | B | Rc

  datatype Pre = Pre(letter: Letter, number: nat)

  datatype Version = Version(epoch: nat, release: seq<nat>, pre: Option<Pre>, post: Option<nat>, dev: Option<nat>,
                             local: Option<nat>)

  function Compare(a: int, b: int): Order {
    if a < b then Less else if a == b then Equal else Greater
  }

  /** The first comparison decides, unless it finds no difference. */
  function Then(first: Order, second: Order): Order {
    if first == Equal then second else first
  }

  function Segment(release: seq<nat>, i: nat): nat {
    if i < |release| then release[i] else 0
  }

  // ---------------------------------------------------------------- PEP 440

  /** Trailing zeros do not count: 1.2 is 1.2.0. */
  function Stripped(release: seq<nat>): seq<nat> {
    if release != [] && release[|release| - 1] == 0 then Stripped(release[..|release| - 1]) else release
  }

  /** Segment by segment; a proper prefix comes first. */
  function CompareSegments(a: seq<nat>, b: seq<nat>): Order
    decreases |a|
  {
    if a == [] && b == [] then Equal
    else if a == [] then Less
    else if b == [] then Greater
    else Then(Compare(a[0], b[0]), CompareSegments(a[1..], b[1..]))
  }

  function LetterRank(letter: Letter): nat {
    match letter
    case A => 0
    case B => 1
    case Rc => 2
  }

  /** Development releases of a final release come before its pre-releases, final releases after them. */
  function Stage(v: Version): int {
    if v.pre.Some? then 0 else if v.post.None? && v.dev.Some? then -1 else 1
  }

  function ComparePre(a: Pre, b: Pre): Order {
    Then(Compare(LetterRank(a.letter), LetterRank(b.letter)), Compare(a.number, b.number))
  }

  /** An absent post-release or local part comes first, an absent development part last. */
  function CompareAbsentFirst(a: Option<nat>, b: Option<nat>): Order {
    Compare(if a.Some? then a.value else -1, if b.Some? then b.value else -1)
  }

  function CompareAbsentLast(a: Option<nat>, b: Option<nat>): Order {
    match (a, b)
    case (None, None) => Equal
    case (None, Some(_)) => Greater
    case (Some(_), None) => Less
    case (Some(x), Some(y)) => Compare(x, y)
  }

  function CompareSuffixes(a: Version, b: Version): Order {
    Then(
      Then(Compare(Stage(a), Stage(b)),
           if a.pre.Some? && b.pre.Some? then ComparePre(a.pre.value, b.pre.value) else Equal),
      Then(CompareAbsentFirst(a.post, b.post),
           Then(CompareAbsentLast(a.dev, b.dev), CompareAbsentFirst(a.local, b.local))))
  }

  function ComparePep440(a: Version, b: Version): Order {
    Then(Compare(a.epoch, b.epoch),
         Then(CompareSegments(Stripped(a.release), Stripped(b.release)), CompareSuffixes(a, b)))
  }

  // ---------------------------------------------------------------- Semantic Versioning

  datatype Identifier = Numeric(number: nat) | Alphanumeric(text: string)

  datatype Semver = Semver(major: nat, minor: nat, patch: nat, prerelease: seq<Identifier>)

  function CompareText(a: string, b: string): Order
    decreases |a|
  {
    if a == [] && b == [] then Equal
    else if a == [] then Less
    else if b == [] then Greater
    else Then(Compare(a[0] as int, b[0] as int), CompareText(a[1..], b[1..]))
  }

  /** Numeric identifiers come before alphanumeric ones. */
  function CompareIdentifier(a: Identifier, b: Identifier): Order {
    match (a, b)
    case (Numeric(m), Numeric(n)) => Compare(m, n)
    case (Numeric(_), Alphanumeric(_)) => Less
    case (Alphanumeric(_), Numeric(_)) => Greater
    case (Alphanumeric(s), Alphanumeric(t)) => CompareText(s, t)
  }

  function CompareIdentifiers(a: seq<Identifier>, b: seq<Identifier>): Order
    decreases |a|
  {
    if a == [] && b == [] then Equal
    else if a == [] then Less
    else if b == [] then Greater
    else Then(CompareIdentifier(a[0], b[0]), CompareIdentifiers(a[1..], b[1..]))
  }

  /** Item 11 of the specification: a version without pre-release identifiers comes after those with some. */
  function CompareSemver(a: Semver, b: Semver): Order {
    Then(Then(Compare(a.major, b.major), Then(Compare(a.minor, b.minor), Compare(a.patch, b.patch))),
         if a.prerelease == [] && b.prerelease == [] then Equal
         else if a.prerelease == [] then Greater
         else if b.prerelease == [] then Less
         else CompareIdentifiers(a.prerelease, b.prerelease))
  }

  // ---------------------------------------------------------------- the conversion

  datatype Converted = Converted(version: Semver) | PostRelease | PreAndDev

  function LetterText(letter: Letter): string {
    match letter
    case A => "a"
    case B => "b"
    case Rc => "rc"
  }

  function Prerelease(v: Version): seq<Identifier> {
    (if v.pre.Some? then [Alphanumeric(LetterText(v.pre.value.letter)), Numeric(v.pre.value.number)] else [])
    + if v.dev.Some? then [Alphanumeric("dev"), Numeric(v.dev.value)] else []
  }

  function Pep440ToSemver(v: Version): Converted {
    if v.post.Some? then PostRelease
    else if v.pre.Some? && v.dev.Some? then PreAndDev
    else Converted(Semver(Segment(v.release, 0), Segment(v.release, 1), Segment(v.release, 2), Prerelease(v)))
  }

  /** What the conversion can express: nothing but three segments and at most one of a pre-release and a
      development part. */
  predicate Expressible(v: Version) {
    v.epoch == 0 && |v.release| <= 3 && v.local.None? && v.post.None? && (v.pre.None? || v.dev.None?)
  }

  /** One is a development release and the other an alpha or beta of the same release. */
  predicate Crossed(a: Version, b: Version) {
    && a.pre.None? && a.dev.Some?
    && b.pre.Some? && b.pre.value.letter != Rc
    && forall i | 0 <= i < 3 :: Segment(a.release, i) == Segment(b.release, i)
  }

  /** What converts, and into what: a post-release does not, nor does a pre-release with a development part; otherwise
      the first three segments are kept, and the one tag there may be becomes the pre-release. */
  lemma {:induction false} ConvertsExactlyWhen(v: Version)
    ensures Pep440ToSemver(v).PostRelease? <==> v.post.Some?
    ensures Pep440ToSemver(v).PreAndDev? <==> v.post.None? && v.pre.Some? && v.dev.Some?
    ensures Pep440ToSemver(v).Converted? ==>
      var w := Pep440ToSemver(v).version;
      && w.major == Segment(v.release, 0) && w.minor == Segment(v.release, 1) && w.patch == Segment(v.release, 2)
      && match (v.pre, v.dev)
         case (Some(Pre(A, n)), _) => w.prerelease == [Alphanumeric("a"), Numeric(n)]
         case (Some(Pre(B, n)), _) => w.prerelease == [Alphanumeric("b"), Numeric(n)]
         case (Some(Pre(Rc, n)), _) => w.prerelease == [Alphanumeric("rc"), Numeric(n)]
         case (None, Some(n)) => w.prerelease == [Alphanumeric("dev"), Numeric(n)]
         case (None, None) => w.prerelease == []
  {
  }

  // ---------------------------------------------------------------- what the two orders are

  lemma {:induction false} SameSegments(release: seq<nat>)
    ensures CompareSegments(release, release) == Equal
  {
    if release != [] {
      SameSegments(release[1..]);
    }
  }

  lemma {:induction false} EqualSegments(a: seq<nat>, b: seq<nat>)
    requires CompareSegments(a, b) == Equal
    ensures a == b
  {
    if a != [] {
      EqualSegments(a[1..], b[1..]);
    }
  }

  lemma {:induction false} FirstDifferenceDecides(a: seq<nat>, b: seq<nat>, i: nat)
    requires (forall k: nat | k < i :: Segment(a, k) == Segment(b, k)) && Segment(a, i) < Segment(b, i)
    ensures CompareSegments(a, b) == Less && CompareSegments(b, a) == Greater
    decreases i
  {
    if i > 0 && a != [] {
      assert Segment(a, 0) == Segment(b, 0);
      forall k: nat | k < i - 1
        ensures Segment(a[1..], k) == Segment(b[1..], k)
      {
        assert Segment(a, k + 1) == Segment(b, k + 1);
      }
      FirstDifferenceDecides(a[1..], b[1..], i - 1);
    }
  }

  /** The epoch decides first, then the first segment in which the releases differ, whatever follows it. */
  lemma {:induction false} ReleaseDecides(a: Version, b: Version, i: nat)
    requires a.epoch < b.epoch
          || (a.epoch == b.epoch
              && (forall k: nat | k < i :: Segment(a.release, k) == Segment(b.release, k))
              && Segment(a.release, i) < Segment(b.release, i))
    ensures ComparePep440(a, b) == Less && ComparePep440(b, a) == Greater
  {
    if a.epoch == b.epoch {
      forall k: nat
        ensures Segment(Stripped(a.release), k) == Segment(a.release, k)
             && Segment(Stripped(b.release), k) == Segment(b.release, k)
      {
        StrippedSegments(a.release, k);
        StrippedSegments(b.release, k);
      }
      FirstDifferenceDecides(Stripped(a.release), Stripped(b.release), i);
    }
  }

  /** Two versions are the same exactly when they differ at most in trailing zeros. */
  lemma {:induction false} EqualExactlyWhen(a: Version, b: Version)
    ensures ComparePep440(a, b) == Equal <==>
      && a.epoch == b.epoch && (forall i: nat :: Segment(a.release, i) == Segment(b.release, i))
      && a.pre == b.pre && a.post == b.post && a.dev == b.dev && a.local == b.local
  {
    var x, y := Stripped(a.release), Stripped(b.release);
    forall i: nat
      ensures Segment(x, i) == Segment(a.release, i) && Segment(y, i) == Segment(b.release, i)
    {
      StrippedSegments(a.release, i);
      StrippedSegments(b.release, i);
    }
    if forall i: nat :: Segment(a.release, i) == Segment(b.release, i) {
      StrippedShorter(a.release);
      StrippedShorter(b.release);
      TrimmedAreSame(x, y);
      SameSegments(x);
    }
    if CompareSegments(x, y) == Equal {
      EqualSegments(x, y);
    }
  }

  lemma {:induction false} TrimmedAreSame(a: seq<nat>, b: seq<nat>)
    requires Trimmed(a) && Trimmed(b) && forall i: nat :: Segment(a, i) == Segment(b, i)
    ensures a == b
  {
    assert b != [] ==> Segment(b, |b| - 1) == Segment(a, |b| - 1);
    assert a != [] ==> Segment(a, |a| - 1) == Segment(b, |a| - 1);
    forall i: nat | i < |a|
      ensures i < |b| ==> a[i] == b[i]
    {
      assert Segment(a, i) == Segment(b, i);
    }
  }

  predicate Before(a: Version, b: Version) {
    ComparePep440(a, b) == Less && ComparePep440(b, a) == Greater
  }

  /** Around one release: development releases, then alphas, betas and release candidates, each number with its own
      development releases before it and its post-releases after it, then the final release, its local variants, and
      its post-releases, again with their development releases before them. */
  lemma {:induction false} Ladder(v: Version, l: nat, k: nat, m: nat, n: nat, letter: Letter, later: Letter)
    requires v.pre.None? && v.post.None? && v.dev.None? && v.local.None? && m < n
    requires (letter == A && later != A) || (letter == B && later == Rc)
    ensures
      var dev, pre, post := v.(dev := Some(l)), v.(pre := Some(Pre(letter, n))), v.(post := Some(k));
      && Before(v.(dev := Some(m)), v.(dev := Some(n)))
      && Before(dev, pre.(dev := Some(m)))
      && Before(pre.(dev := Some(m)), pre.(dev := Some(n)))
      && Before(pre.(dev := Some(m)), pre)
      && Before(pre, pre.(post := Some(k)))
      && Before(v.(pre := Some(Pre(letter, m)), post := Some(k)), pre.(dev := Some(l)))
      && Before(pre.(post := Some(k)), v.(pre := Some(Pre(later, m)), dev := Some(l)))
      && Before(v.(pre := Some(Pre(Rc, n)), post := Some(k)), v)
      && Before(v, v.(local := Some(l)))
      && Before(v.(local := Some(m)), v.(local := Some(n)))
      && Before(v.(local := Some(l)), post.(dev := Some(m)))
      && Before(post.(dev := Some(m)), post)
      && Before(v.(post := Some(m)), v.(post := Some(n), dev := Some(l)))
  {
    SameSegments(Stripped(v.release));
  }

  /** Item 11 of the specification, for the identifiers: the first difference decides, numbers by size and before
      words, and a proper prefix comes first. */
  lemma {:induction false} FirstIdentifierDecides(
    common: seq<Identifier>, x: Identifier, y: Identifier, a: seq<Identifier>, b: seq<Identifier>)
    requires CompareIdentifier(x, y) == Less
    ensures CompareIdentifiers(common + [x] + a, common + [y] + b) == Less
    ensures CompareIdentifiers(common, common + [y] + b) == Less
  {
    if common == [] {
      assert [x] + a == common + [x] + a && [y] + b == common + [y] + b;
    } else {
      SameIdentifier(common[0]);
      FirstIdentifierDecides(common[1..], x, y, a, b);
      assert (common + [x] + a)[1..] == common[1..] + [x] + a;
      assert (common + [y] + b)[1..] == common[1..] + [y] + b;
    }
  }

  lemma {:induction false} SameIdentifier(x: Identifier)
    ensures CompareIdentifier(x, x) == Equal
  {
    if x.Alphanumeric? {
      SameText(x.text);
    }
  }

  /** Numbers compare by size and come before words; words compare by their first difference. */
  lemma {:induction false} IdentifierOrder(m: nat, n: nat, common: string, c: char, d: char, s: string, t: string)
    requires m < n && c < d
    ensures CompareIdentifier(Numeric(m), Numeric(n)) == Less
    ensures CompareIdentifier(Numeric(m), Alphanumeric(s)) == Less
    ensures CompareIdentifier(Alphanumeric(common + [c] + s), Alphanumeric(common + [d] + t)) == Less
    ensures CompareIdentifier(Alphanumeric(common), Alphanumeric(common + [d] + t)) == Less
  {
    FirstCharacterDecides(common, c, d, s, t);
  }

  lemma {:induction false} FirstCharacterDecides(common: string, c: char, d: char, s: string, t: string)
    requires c < d
    ensures CompareText(common + [c] + s, common + [d] + t) == Less
    ensures CompareText(common, common + [d] + t) == Less
  {
    if common == [] {
      assert [c] + s == common + [c] + s && [d] + t == common + [d] + t;
    } else {
      FirstCharacterDecides(common[1..], c, d, s, t);
      assert (common + [c] + s)[1..] == common[1..] + [c] + s;
      assert (common + [d] + t)[1..] == common[1..] + [d] + t;
    }
  }

  /** Item 11 for whole versions: the numbers decide first, and a version without pre-release comes after all that
      have one. */
  lemma {:induction false} SemverOrder(a: Semver, b: Semver)
    ensures a.major < b.major || (a.major == b.major
              && (a.minor < b.minor || (a.minor == b.minor && a.patch < b.patch))) ==>
      CompareSemver(a, b) == Less && CompareSemver(b, a) == Greater
    ensures a.(prerelease := []) == b.(prerelease := []) && a.prerelease != [] ==>
      && (b.prerelease == [] ==> CompareSemver(a, b) == Less && CompareSemver(b, a) == Greater)
      && (b.prerelease != [] ==> CompareSemver(a, b) == CompareIdentifiers(a.prerelease, b.prerelease))
  {
  }

  // ---------------------------------------------------------------- agreement of the two orders

  lemma {:induction false} StrippedShorter(release: seq<nat>)
    ensures |Stripped(release)| <= |release| && Stripped(release) == release[..|Stripped(release)|]
    ensures forall i | |Stripped(release)| <= i < |release| :: release[i] == 0
    ensures Stripped(release) != [] ==> Stripped(release)[|Stripped(release)| - 1] != 0
  {
    if release != [] && release[|release| - 1] == 0 {
      StrippedShorter(release[..|release| - 1]);
    }
  }

  lemma {:induction false} StrippedSegments(release: seq<nat>, i: nat)
    ensures Segment(Stripped(release), i) == Segment(release, i)
  {
    StrippedShorter(release);
  }

  /** Comparison of the first three segments, absent ones counting as zero. */
  function CompareCores(a: seq<nat>, b: seq<nat>): Order {
    Then(Compare(Segment(a, 0), Segment(b, 0)),
         Then(Compare(Segment(a, 1), Segment(b, 1)), Compare(Segment(a, 2), Segment(b, 2))))
  }

  predicate Trimmed(release: seq<nat>) {
    release != [] ==> release[|release| - 1] != 0
  }

  lemma {:induction false} TrimmedOrder(a: seq<nat>, b: seq<nat>)
    requires |a| <= 3 && |b| <= 3 && Trimmed(a) && Trimmed(b)
    ensures CompareSegments(a, b) == CompareCores(a, b)
  {
    SegmentsUpTo(a, b, 0);
  }

  /** The comparison from position `i` on. */
  function CompareFrom(a: seq<nat>, b: seq<nat>, i: nat): Order
    requires i <= 3
    decreases 3 - i
  {
    if i == 3 then Equal else Then(Compare(Segment(a, i), Segment(b, i)), CompareFrom(a, b, i + 1))
  }

  lemma {:induction false} SegmentsUpTo(a: seq<nat>, b: seq<nat>, i: nat)
    requires i <= 3 && |a| <= 3 && |b| <= 3 && Trimmed(a) && Trimmed(b) && i <= |a| && i <= |b|
    ensures CompareSegments(a[i..], b[i..]) == CompareFrom(a, b, i)
    ensures i == 0 ==> CompareFrom(a, b, 0) == CompareCores(a, b) && a[0..] == a && b[0..] == b
    decreases 3 - i
  {
    if i < |a| && i < |b| {
      SegmentsUpTo(a, b, i + 1);
      assert a[i..][1..] == a[i + 1..] && b[i..][1..] == b[i + 1..];
    } else if i < |a| {
      OneSided(a, b, i);
    } else {
      OneSided(a, b, i);
    }
  }

  lemma {:induction false} OneSided(a: seq<nat>, b: seq<nat>, i: nat)
    requires i <= 3 && |a| <= 3 && |b| <= 3 && Trimmed(a) && Trimmed(b)
    ensures i < |a| && |b| <= i ==> CompareFrom(a, b, i) == Greater
    ensures i < |b| && |a| <= i ==> CompareFrom(a, b, i) == Less
    ensures |a| <= i && |b| <= i ==> CompareFrom(a, b, i) == Equal
    decreases 3 - i
  {
    if i < 3 {
      OneSided(a, b, i + 1);
    }
  }

  lemma {:induction false} ReleasesAgree(a: seq<nat>, b: seq<nat>)
    requires |a| <= 3 && |b| <= 3
    ensures CompareSegments(Stripped(a), Stripped(b)) == CompareCores(a, b)
  {
    StrippedShorter(a);
    StrippedShorter(b);
    TrimmedOrder(Stripped(a), Stripped(b));
    forall i | 0 <= i < 3
      ensures Segment(Stripped(a), i) == Segment(a, i) && Segment(Stripped(b), i) == Segment(b, i)
    {
      StrippedSegments(a, i);
      StrippedSegments(b, i);
    }
  }

  /** The single tag a pre-release of the converted version begins with, in ASCII order. */
  function TagRank(tag: string): nat {
    if tag == "a" then 0 else if tag == "b" then 1 else if tag == "dev" then 2 else 3
  }

  lemma {:induction false} SameText(s: string)
    ensures CompareText(s, s) == Equal
  {
    if s != [] {
      SameText(s[1..]);
    }
  }

  lemma {:induction false} TagOrder(s: string, t: string)
    requires s in {"a", "b", "dev", "rc"} && t in {"a", "b", "dev", "rc"}
    ensures CompareText(s, t) == Compare(TagRank(s), TagRank(t))
  {
    if s == t {
      SameText(s);
    } else {
      assert s[0] != t[0];
    }
  }

  lemma {:induction false} TaggedOrder(s: string, m: nat, t: string, n: nat)
    requires s in {"a", "b", "dev", "rc"} && t in {"a", "b", "dev", "rc"}
    ensures CompareIdentifiers([Alphanumeric(s), Numeric(m)], [Alphanumeric(t), Numeric(n)])
         == Then(Compare(TagRank(s), TagRank(t)), Compare(m, n))
  {
    TagOrder(s, t);
    assert [Alphanumeric(s), Numeric(m)][1..] == [Numeric(m)];
    assert [Alphanumeric(t), Numeric(n)][1..] == [Numeric(n)];
    assert CompareIdentifiers([Numeric(m)], [Numeric(n)]) == Compare(m, n);
  }

  /** The tag and number a version keeps as its pre-release, if any. */
  function Tag(v: Version): Option<(string, nat)> {
    if v.pre.Some? then Some((LetterText(v.pre.value.letter), v.pre.value.number))
    else if v.dev.Some? then Some(("dev", v.dev.value))
    else None
  }

  function ComparePrerelease(a: seq<Identifier>, b: seq<Identifier>): Order {
    if a == [] && b == [] then Equal
    else if a == [] then Greater
    else if b == [] then Less
    else CompareIdentifiers(a, b)
  }

  lemma {:induction false} PrereleaseOrder(a: Version, b: Version)
    requires Expressible(a) && Expressible(b)
    ensures ComparePrerelease(Prerelease(a), Prerelease(b))
         == match (Tag(a), Tag(b))
            case (None, None) => Equal
            case (None, Some(_)) => Greater
            case (Some(_), None) => Less
            case (Some(x), Some(y)) => Then(Compare(TagRank(x.0), TagRank(y.0)), Compare(x.1, y.1))
  {
    TagIs(a);
    TagIs(b);
    if Tag(a).Some? && Tag(b).Some? {
      TaggedOrder(Tag(a).value.0, Tag(a).value.1, Tag(b).value.0, Tag(b).value.1);
    }
  }

  lemma {:induction false} TagIs(v: Version)
    requires Expressible(v)
    ensures Prerelease(v)
         == if Tag(v).Some? then [Alphanumeric(Tag(v).value.0), Numeric(Tag(v).value.1)] else []
  {
  }

  lemma {:induction false} SuffixesAgreeExactlyWhen(a: Version, b: Version)
    requires Expressible(a) && Expressible(b)
    ensures CompareSuffixes(a, b) == ComparePrerelease(Prerelease(a), Prerelease(b)) <==>
      !(a.pre.None? && a.dev.Some? && b.pre.Some? && b.pre.value.letter != Rc)
      && !(b.pre.None? && b.dev.Some? && a.pre.Some? && a.pre.value.letter != Rc)
  {
    PrereleaseOrder(a, b);
  }

  /** The conversion keeps the order of any two versions it can express, except that it puts a development release
      after an alpha or beta of the same release instead of before it. */
  lemma {:induction false} ConversionKeepsOrderExactlyWhen(a: Version, b: Version)
    requires Expressible(a) && Expressible(b)
    ensures Pep440ToSemver(a).Converted? && Pep440ToSemver(b).Converted?
    ensures ComparePep440(a, b) == CompareSemver(Pep440ToSemver(a).version, Pep440ToSemver(b).version)
       <==> !Crossed(a, b) && !Crossed(b, a)
  {
    ReleasesAgree(a.release, b.release);
    SuffixesAgreeExactlyWhen(a, b);
    assert (forall i | 0 <= i < 3 :: Segment(a.release, i) == Segment(b.release, i))
      <==> CompareCores(a.release, b.release) == Equal;
  }

  /** A release candidate, a development release or a final release. */
  predicate Released(v: Version) {
    Expressible(v) && (v.pre.Some? ==> v.pre.value.letter == Rc)
  }

  /** On the versions that are actually published the conversion is an order embedding. */
  lemma {:induction false} ConversionEmbedsReleases(a: Version, b: Version)
    requires Released(a) && Released(b)
    ensures Pep440ToSemver(a).Converted? && Pep440ToSemver(b).Converted?
    ensures ComparePep440(a, b) == CompareSemver(Pep440ToSemver(a).version, Pep440ToSemver(b).version)
  {
    ConversionKeepsOrderExactlyWhen(a, b);
  }

  /** What the conversion forgets: two versions become one exactly when they differ at most in their epoch, their
      local part and the segments from the fourth on. */
  lemma {:induction false} ConversionForgetsExactly(a: Version, b: Version)
    requires Pep440ToSemver(a).Converted? && Pep440ToSemver(b).Converted?
    ensures Pep440ToSemver(a) == Pep440ToSemver(b)
       <==> CompareCores(a.release, b.release) == Equal && a.pre == b.pre && a.dev == b.dev
  {
    if Prerelease(a) == Prerelease(b) {
      if Prerelease(a) != [] {
        assert Prerelease(a)[0] == Prerelease(b)[0] && Prerelease(a)[1] == Prerelease(b)[1];
      }
    }
  }

  // ---------------------------------------------------------------- the next version

  datatype Component = Major | Minor | Patch | PreRelease | StripPreRelease

  datatype Bumped = Bumped(version: Version) | Rejected

  method NextVersion(v: Version, index: Component) returns (next: Bumped)
    ensures next == Next(v, index)
  {
    var major, minor, patch := Segment(v.release, 0), Segment(v.release, 1), Segment(v.release, 2);
    var pre, post := v.pre, v.post;
    match index {
      case Major =>
        major, minor, patch, pre, post := major + 1, 0, 0, None, None;
      case Minor =>
        minor, patch, pre, post := minor + 1, 0, None, None;
      case Patch =>
        patch, pre, post := patch + 1, None, None;
      case PreRelease =>
        if post.Some? {
          return Rejected;
        }
        pre := Some(if pre.None? then Pre(Rc, 1) else Pre(pre.value.letter, pre.value.number + 1));
      case StripPreRelease =>
        pre := None;
        if post.Some? {
          return Rejected;
        }
    }
    return Bumped(Version(0, [major, minor, patch], pre, post, None, None));
  }

  function Next(v: Version, index: Component): Bumped {
    var x, y, z := Segment(v.release, 0), Segment(v.release, 1), Segment(v.release, 2);
    match index
    case Major => Bumped(Plain(x + 1, 0, 0, None))
    case Minor => Bumped(Plain(x, y + 1, 0, None))
    case Patch => Bumped(Plain(x, y, z + 1, None))
    case PreRelease =>
      if v.post.Some? then Rejected
      else
        var pre := if v.pre.None? then Pre(Rc, 1) else Pre(v.pre.value.letter, v.pre.value.number + 1);
        Bumped(Plain(x, y, z, Some(pre)))
    case StripPreRelease => if v.post.Some? then Rejected else Bumped(Plain(x, y, z, None))
  }

  function Plain(x: nat, y: nat, z: nat, pre: Option<Pre>): Version {
    Version(0, [x, y, z], pre, None, None, None)
  }

  /** Bumping makes a version newer, except that a final release is not made newer by giving it a release
      candidate, and not changed by stripping what it does not have. */
  lemma {:induction false} NextIsNewerExactlyWhen(v: Version, index: Component)
    requires Expressible(v)
    ensures Next(v, index).Bumped? && Expressible(Next(v, index).version)
    ensures ComparePep440(v, Next(v, index).version) == Less <==>
      !(index in {PreRelease, StripPreRelease} && v.pre.None? && v.dev.None?)
  {
    ReleasesAgree(v.release, Next(v, index).version.release);
  }

  predicate FinalRelease(v: Version) {
    Expressible(v) && v.pre.None? && v.dev.None?
  }

  /** The second version has a larger number in the given place and the same ones before it. */
  predicate LargerIn(v: Version, w: Version, index: Component) {
    match index
    case Major => Segment(w.release, 0) > Segment(v.release, 0)
    case Minor => Segment(w.release, 0) == Segment(v.release, 0) && Segment(w.release, 1) > Segment(v.release, 1)
    case Patch =>
      && Segment(w.release, 0) == Segment(v.release, 0) && Segment(w.release, 1) == Segment(v.release, 1)
      && Segment(w.release, 2) > Segment(v.release, 2)
    case _ => false
  }

  /** A major, minor or patch bump is a final release that is larger in just that place, by one, whatever the version
      had besides. */
  lemma {:induction false} NextIsLarger(v: Version, index: Component)
    requires index in {Major, Minor, Patch}
    ensures Next(v, index).Bumped? && FinalRelease(Next(v, index).version)
    ensures LargerIn(v, Next(v, index).version, index)
    ensures
      var w, place := Next(v, index).version.release, if index == Major then 0 else if index == Minor then 1 else 2;
      && Segment(w, place) == Segment(v.release, place) + 1
      && forall i: nat | i > place :: Segment(w, i) == 0
  {
  }

  /** Bumping the pre-release number keeps the release and counts on, from the first release candidate if there was no
      pre-release; stripping it leaves the final release; a post-release is refused either way. */
  lemma {:induction false} NextCandidateIs(v: Version)
    ensures v.post.Some? <==> Next(v, PreRelease).Rejected?
    ensures v.post.Some? <==> Next(v, StripPreRelease).Rejected?
    ensures v.post.None? ==>
      var candidate, final := Next(v, PreRelease).version, Next(v, StripPreRelease).version;
      && (forall i | 0 <= i < 3 :: Segment(candidate.release, i) == Segment(v.release, i) == Segment(final.release, i))
      && |candidate.release| == |final.release| == 3
      && candidate.pre == Some(match v.pre
                               case None => Pre(Rc, 1)
                               case Some(pre) => Pre(pre.letter, pre.number + 1))
      && candidate.epoch == 0 && candidate.dev.None? && candidate.post.None? && candidate.local.None?
      && FinalRelease(final)
  {
  }

  /** No final release lies between a version and its bump: of the final releases with a larger major, minor or patch
      number (the ones before it being equal), the bump is the first. */
  lemma {:induction false} NextIsFirst(v: Version, index: Component, w: Version)
    requires Expressible(v) && FinalRelease(w) && LargerIn(v, w, index)
    ensures Next(v, index).Bumped? && FinalRelease(Next(v, index).version)
    ensures ComparePep440(Next(v, index).version, w) != Greater
  {
    ReleasesAgree(Next(v, index).version.release, w.release);
  }

  /** And of the release candidates of the same release that come after it, the next candidate is the first. */
  lemma {:induction false} NextCandidateIsFirst(v: Version, w: Version)
    requires Expressible(v) && Expressible(w) && w.pre.Some? && w.pre.value.letter == Rc && w.pre.value.number > 0
    requires v.pre.Some? ==> v.pre.value.letter == Rc
    requires v.dev.Some? || v.pre.Some?
    requires CompareCores(v.release, w.release) == Equal && ComparePep440(v, w) == Less
    ensures Next(v, PreRelease).Bumped? && ComparePep440(Next(v, PreRelease).version, w) != Greater
  {
    ReleasesAgree(v.release, w.release);
    ReleasesAgree(Next(v, PreRelease).version.release, w.release);
  }

  /** A line of release candidates ends in a final release that comes after all of them. */
  lemma {:induction false} CandidatesClimbToFinal(v: Version, w: Version)
    requires Expressible(v) && v.pre.Some?
    requires w == Next(v, StripPreRelease).version
    ensures w.pre.None? && w.dev.None?
    ensures ComparePep440(v, Next(v, PreRelease).version) == Less
    ensures ComparePep440(Next(v, PreRelease).version, w) == Less
    ensures Next(Next(v, PreRelease).version, StripPreRelease) == Next(v, StripPreRelease)
  {
    NextIsNewerExactlyWhen(v, PreRelease);
    NextIsNewerExactlyWhen(Next(v, PreRelease).version, StripPreRelease);
  }

  // ---------------------------------------------------------------- stamped development versions

  function Pow10(n: nat): (p: nat)
    ensures p > 0
  {
    if n == 0 then 1 else 10 * Pow10(n - 1)
  }

  /** Number of decimal digits, at least one. */
  function Digits(n: nat): (d: nat)
    ensures d > 0
  {
    if n < 10 then 1 else 1 + Digits(n / 10)
  }

  /** Width of the pipeline number in the stamp: padded to six digits, but never cut off. */
  function Width(iid: nat): nat {
    if Digits(iid) < 6 then 6 else Digits(iid)
  }

  /** The date as eight digits, followed by the padded pipeline number. */
  function Stamp(date: nat, iid: nat): nat {
    date * Pow10(Width(iid)) + iid
  }

  /** Below a million pipelines the stamp is the date and six digits for the pipeline, above it wider by a digit each
      time. */
  lemma {:induction false} StampIs(date: nat, iid: nat)
    ensures iid < 1000000 ==> Stamp(date, iid) == date * 1000000 + iid
    ensures 1000000 <= iid < 10000000 ==> Stamp(date, iid) == date * 10000000 + iid
    ensures iid >= 1000000 ==> Pow10(Width(iid) - 1) <= iid < Pow10(Width(iid))
  {
    assert Pow10(6) == 1000000 && Pow10(7) == 10000000;
    FitsWidth(iid);
    if iid < 1000000 {
      SmallNumbersAreSixWide(iid);
    } else {
      assert Digits(1000000) == 7 && Digits(9999999) == 7;
      DigitsGrow(1000000, iid);
      DigitsAreNeeded(iid);
      if iid < 10000000 {
        DigitsGrow(iid, 9999999);
      }
    }
  }

  lemma {:induction false} DigitsAreNeeded(n: nat)
    requires n > 0
    ensures Pow10(Digits(n) - 1) <= n
  {
    if n >= 10 {
      DigitsAreNeeded(n / 10);
    }
  }

  predicate IsDate(date: nat) {
    Pow10(7) <= date < Pow10(8)
  }

  lemma {:induction false} DigitsBound(n: nat)
    ensures n < Pow10(Digits(n))
  {
    if n >= 10 {
      DigitsBound(n / 10);
    }
  }

  lemma {:induction false} DigitsGrow(m: nat, n: nat)
    requires m <= n
    ensures Digits(m) <= Digits(n)
    decreases n
  {
    if m >= 10 {
      DigitsGrow(m / 10, n / 10);
    }
  }

  lemma {:induction false} PowersGrow(m: nat, n: nat)
    requires m <= n
    ensures Pow10(m) <= Pow10(n)
    ensures m < n ==> 10 * Pow10(m) <= Pow10(n)
  {
    if m < n {
      PowersGrow(m, n - 1);
    }
  }

  lemma {:induction false} FitsWidth(iid: nat)
    ensures iid < Pow10(Width(iid))
  {
    DigitsBound(iid);
    PowersGrow(Digits(iid), Width(iid));
  }

  lemma {:induction false} SameWidthStamps(d: nat, i: nat, e: nat, j: nat, p: nat)
    requires i < p && j < p
    ensures Compare(d * p + i, e * p + j) == Then(Compare(d, e), Compare(i, j))
  {
    if d < e {
      assert d * p + p <= e * p by {
        assert (d + 1) * p <= e * p;
      }
    } else if d > e {
      assert e * p + p <= d * p by {
        assert (e + 1) * p <= d * p;
      }
    }
  }

  lemma {:induction false} WiderStampIsLarger(d: nat, i: nat, e: nat, j: nat)
    requires IsDate(d) && IsDate(e) && Width(i) < Width(j)
    ensures Stamp(d, i) < Stamp(e, j) && i < j
  {
    FitsWidth(i);
    PowersGrow(Width(i), Width(j));
    assert Pow10(8) == 10 * Pow10(7);
    WiderMultiple(d, i, e, j, Pow10(7), Pow10(Width(i)), Pow10(Width(j)));
    if j <= i {
      DigitsGrow(j, i);
    }
  }

  lemma {:induction false} WiderMultiple(d: nat, i: nat, e: nat, j: nat, least: nat, p: nat, q: nat)
    requires i < p && 10 * p <= q && d < 10 * least && least <= e
    ensures d * p + i < e * q + j
  {
    TimesGrows(d + 1, 10 * least, p);
    TimesGrows(10 * p, q, least);
    TimesGrows(least, e, q);
    assert (d + 1) * p == d * p + p;
    assert 10 * least * p == 10 * p * least;
    assert q * least == least * q;
  }

  lemma {:induction false} TimesGrows(a: nat, b: nat, p: nat)
    requires a <= b
    ensures a * p <= b * p
  {
  }

  /** Stamps order by date and then by pipeline number, unless one pipeline number is wider than the other (which
      needs a million pipelines) and belongs to an earlier date. */
  lemma {:induction false} StampsOrderExactlyWhen(d: nat, i: nat, e: nat, j: nat)
    requires IsDate(d) && IsDate(e)
    ensures Compare(Stamp(d, i), Stamp(e, j)) == Then(Compare(d, e), Compare(i, j))
       <==> !(Width(i) < Width(j) && e < d) && !(Width(j) < Width(i) && d < e)
  {
    if Width(i) < Width(j) {
      WiderStampIsLarger(d, i, e, j);
    } else if Width(j) < Width(i) {
      WiderStampIsLarger(e, j, d, i);
    } else {
      FitsWidth(i);
      FitsWidth(j);
      SameWidthStamps(d, i, e, j, Pow10(Width(i)));
    }
  }

  lemma {:induction false} SmallNumbersAreSixWide(iid: nat)
    requires iid < Pow10(6)
    ensures Width(iid) == 6
  {
    DigitsGrow(iid, 999999);
    assert Pow10(6) == 1000000;
    assert Digits(999999) == 6;
  }

  /** The development version CI publishes: what is left of the project's version, with the stamp as its number. */
  function Annotated(base: Version, date: nat, iid: nat): Version {
    base.(dev := Some(Stamp(date, iid)))
  }

  /** Development builds of one release are ordered by date and pipeline number, in Python's order and in
      Electron's. */
  lemma {:induction false} BuildsOrderByDateAndPipeline(base: Version, d: nat, i: nat, e: nat, j: nat)
    requires Released(base) && base.pre.None? && IsDate(d) && IsDate(e) && i < Pow10(6) && j < Pow10(6)
    ensures
      var v, w := Annotated(base, d, i), Annotated(base, e, j);
      && ComparePep440(v, w) == Then(Compare(d, e), Compare(i, j))
      && Pep440ToSemver(v).Converted? && Pep440ToSemver(w).Converted?
      && CompareSemver(Pep440ToSemver(v).version, Pep440ToSemver(w).version) == Then(Compare(d, e), Compare(i, j))
  {
    SmallNumbersAreSixWide(i);
    SmallNumbersAreSixWide(j);
    StampsOrderExactlyWhen(d, i, e, j);
    ReleasesAgree(base.release, base.release);
    ConversionEmbedsReleases(Annotated(base, d, i), Annotated(base, e, j));
  }
}
