/** Taking media tags out of a text, given where the tags were found. */
module MediaSpans {

  /** One match: where it begins and ends, the path it names, and whether that is a local media file. */
  datatype Span = Span(start: nat, end: nat, path: string, local: bool)

  function LocalOnes(spans: seq<Span>): seq<Span> {
    if spans == [] then []
    else LocalOnes(spans[..|spans| - 1]) + if spans[|spans| - 1].local then [spans[|spans| - 1]] else []
  }

  function Paths(spans: seq<Span>): seq<string> {
    seq(|spans|, i requires 0 <= i < |spans| => spans[i].path)
  }

  /** Non-empty matches within a text of the given length, one after the other, as a regular expression finds
      them. */
  predicate Found(spans: seq<Span>, length: nat) {
    && (forall i | 0 <= i < |spans| :: spans[i].start < spans[i].end <= length)
    && forall i, j | 0 <= i < j < |spans| :: spans[i].end <= spans[j].start
  }

  predicate Covers(spans: seq<Span>, p: int) {
    exists span <- spans :: span.start <= p < span.end
  }

  function Min(a: int, b: int): int {
    if a <= b then a else b
  }

  // ---------------------------------------------------------------- removal back to front

  /** `text[:start] + text[end:]`, with slices that stop at the end of the text. */
  function Remove<T>(text: seq<T>, span: Span): seq<T> {
    text[..Min(span.start, |text|)] + text[Min(span.end, |text|)..]
  }

  /** The last span of the list is removed first. */
  function RemoveAll<T>(text: seq<T>, spans: seq<Span>): seq<T>
    decreases |spans|
  {
    if spans == [] then text else RemoveAll(Remove(text, spans[|spans| - 1]), spans[..|spans| - 1])
  }

  /** What lies between the spans from some position on. */
  function Between<T>(text: seq<T>, from: nat, spans: seq<Span>): seq<T>
    requires from <= |text| && Found(spans, |text|) && (spans != [] ==> from <= spans[0].start)
    decreases |spans|
  {
    if spans == [] then text[from..]
    else text[from..spans[0].start] + Between(text, spans[0].end, spans[1..])
  }

  lemma {:induction false} FoundWithoutLast(spans: seq<Span>, length: nat)
    requires Found(spans, length) && spans != []
    ensures
      var last := spans[|spans| - 1];
      Found(spans[..|spans| - 1], length - (last.end - last.start))
  {
    var last := spans[|spans| - 1];
    forall i | 0 <= i < |spans| - 1
      ensures spans[i].end <= length - (last.end - last.start)
    {
      assert spans[i].end <= last.start;
    }
  }

  lemma {:induction false} RemoveLast<T>(text: seq<T>, from: nat, spans: seq<Span>)
    requires spans != [] && Found(spans, |text|) && from <= spans[0].start
    ensures
      var last, before := spans[|spans| - 1], spans[..|spans| - 1];
      var shorter := Remove(text, last);
      && Found(before, |shorter|) && from <= |shorter| && (before != [] ==> from <= before[0].start)
      && Between(shorter, from, before) == Between(text, from, spans)
    decreases |spans|
  {
    var last, before := spans[|spans| - 1], spans[..|spans| - 1];
    var shorter := Remove(text, last);
    FoundWithoutLast(spans, |text|);
    RemovedIs(text, last);
    if |spans| == 1 {
      assert spans[1..] == [] && before == [];
      assert shorter[from..] == text[from..last.start] + text[last.end..];
    } else {
      var first, rest := spans[0], spans[1..];
      RemoveLast(text, first.end, rest);
      assert rest[..|rest| - 1] == before[1..] && rest[|rest| - 1] == last;
      assert first.end <= last.start;
      assert shorter[from..first.start] == text[from..first.start];
    }
  }

  lemma {:induction false} RemovedIs<T>(text: seq<T>, span: Span)
    requires span.start <= span.end <= |text|
    ensures Remove(text, span) == text[..span.start] + text[span.end..]
    ensures |Remove(text, span)| == |text| - (span.end - span.start)
  {
  }

  /** Removing spans that follow each other, back to front, leaves what lies between them. */
  lemma {:induction false} BackToFrontIsRight<T>(text: seq<T>, spans: seq<Span>)
    requires Found(spans, |text|)
    ensures RemoveAll(text, spans) == Between(text, 0, spans)
    decreases |spans|
  {
    if spans != [] {
      RemoveLast(text, 0, spans);
      BackToFrontIsRight(Remove(text, spans[|spans| - 1]), spans[..|spans| - 1]);
    }
  }

  lemma {:induction false} RemoveAllConcat<T>(text: seq<T>, a: seq<Span>, b: seq<Span>)
    ensures RemoveAll(text, a + b) == RemoveAll(RemoveAll(text, b), a)
    decreases |b|
  {
    if b == [] {
      assert a + b == a;
    } else {
      assert (a + b)[..|a + b| - 1] == a + b[..|b| - 1];
      RemoveAllConcat(Remove(text, b[|b| - 1]), a, b[..|b| - 1]);
    }
  }

  // ---------------------------------------------------------------- which positions survive

  function Positions(length: nat): (r: seq<int>)
    ensures |r| == length && forall i | 0 <= i < length :: r[i] == i
  {
    seq(length, i => i)
  }

  lemma {:induction false} RemoveAddsNothing(chosen: seq<int>, span: Span)
    ensures forall p <- Remove(chosen, span) :: p in chosen
  {
  }

  /** Removal only looks at positions: what is left of a text is its characters at the positions that are left. */
  lemma {:induction false} RemovalIsPositional<T>(text: seq<T>, chosen: seq<int>, spans: seq<Span>)
    requires forall p <- chosen :: 0 <= p < |text|
    ensures forall p <- RemoveAll(chosen, spans) :: p in chosen
    ensures RemoveAll(At(text, chosen), spans) == At(text, RemoveAll(chosen, spans))
    decreases |spans|
  {
    if spans != [] {
      var last := spans[|spans| - 1];
      RemoveAddsNothing(chosen, last);
      assert Remove(At(text, chosen), last) == At(text, Remove(chosen, last));
      RemovalIsPositional(text, Remove(chosen, last), spans[..|spans| - 1]);
    }
  }

  function At<T>(text: seq<T>, chosen: seq<int>): seq<T>
    requires forall p <- chosen :: 0 <= p < |text|
  {
    seq(|chosen|, i requires 0 <= i < |chosen| => assert chosen[i] in chosen; text[chosen[i]])
  }

  lemma {:induction false} BetweenPositions(length: nat, from: nat, spans: seq<Span>)
    requires from <= length && Found(spans, length) && (spans != [] ==> from <= spans[0].start)
    ensures forall p :: p in Between(Positions(length), from, spans) <==> from <= p < length && !Covers(spans, p)
    decreases |spans|
  {
    var all := Positions(length);
    if spans == [] {
      SlicePositions(length, from, length);
      assert all[from..length] == all[from..];
    } else {
      BetweenPositions(length, spans[0].end, spans[1..]);
      SlicePositions(length, from, spans[0].start);
      forall p
        ensures p in Between(all, from, spans) <==> from <= p < length && !Covers(spans, p)
      {
        CoversCons(spans, p);
        assert forall i | 0 < i < |spans| :: spans[0].end <= spans[i].start;
      }
    }
  }

  lemma {:induction false} CoversCons(spans: seq<Span>, p: int)
    requires spans != []
    ensures Covers(spans, p) <==> spans[0].start <= p < spans[0].end || Covers(spans[1..], p)
  {
    assert spans == [spans[0]] + spans[1..];
  }

  lemma {:induction false} SlicePositions(length: nat, from: nat, to: nat)
    requires from <= to <= length
    ensures forall p :: p in Positions(length)[from..to] <==> from <= p < to
  {
    var all := Positions(length);
    forall p | from <= p < to
      ensures p in all[from..to]
    {
      assert all[from..to][p - from] == p;
    }
  }

  /** Every image is found before every video. */
  predicate ImagesFirst(images: seq<Span>, videos: seq<Span>) {
    forall i, j | 0 <= i < |images| && 0 <= j < |videos| :: images[i].end <= videos[j].start
  }

  /** No image overlaps a video. */
  predicate Apart(images: seq<Span>, videos: seq<Span>) {
    forall i, j | 0 <= i < |images| && 0 <= j < |videos| ::
      images[i].end <= videos[j].start || videos[j].end <= images[i].start
  }

  /** Exactly the covered positions are gone. */
  ghost predicate RemovesExactly(length: nat, spans: seq<Span>) {
    forall p :: p in RemoveAll(Positions(length), spans) <==> 0 <= p < length && !Covers(spans, p)
  }

  lemma {:induction false} FoundTogether(images: seq<Span>, videos: seq<Span>, length: nat)
    requires Found(images, length) && Found(videos, length) && ImagesFirst(images, videos)
    ensures Found(images + videos, length)
  {
    var both := images + videos;
    forall i, j | 0 <= i < j < |both|
      ensures both[i].end <= both[j].start
    {
      if i < |images| <= j {
        assert images[i].end <= videos[j - |images|].start;
      }
    }
  }

  /** Total length of the spans that end at or before a position. */
  function LengthBefore(spans: seq<Span>, q: nat): nat {
    if spans == [] then 0
    else
      (if spans[0].start < spans[0].end <= q then spans[0].end - spans[0].start else 0) + LengthBefore(spans[1..], q)
  }

  lemma {:induction false} LengthBeforeBound(spans: seq<Span>, from: nat, q: nat, length: nat)
    requires Found(spans, length) && from <= q
    requires forall i | 0 <= i < |spans| :: spans[i].end <= q ==> from <= spans[i].start
    ensures LengthBefore(spans, q) <= q - from
    decreases |spans|
  {
    if spans != [] {
      if spans[0].end <= q {
        LengthBeforeBound(spans[1..], spans[0].end, q, length);
      } else {
        LengthBeforeBound(spans[1..], from, q, length);
      }
    }
  }

  lemma {:induction false} SomeLengthBefore(spans: seq<Span>, j: nat, q: nat, length: nat)
    requires Found(spans, length) && j < |spans| && spans[j].end <= q
    ensures LengthBefore(spans, q) > 0
    decreases |spans|
  {
    if j > 0 {
      SomeLengthBefore(spans[1..], j - 1, q, length);
    }
  }

  /** Where an uncovered position is found among the positions that are left. */
  lemma {:induction false} PlaceAmongKept(length: nat, from: nat, spans: seq<Span>, q: nat)
    requires from <= q < length && Found(spans, length) && (spans != [] ==> from <= spans[0].start)
    requires !Covers(spans, q)
    ensures
      var kept := Between(Positions(length), from, spans);
      var place := q - from - LengthBefore(spans, q);
      0 <= place < |kept| && kept[place] == q
    decreases |spans|
  {
    if spans == [] {
      assert Positions(length)[from..][q - from] == q;
    } else {
      CoversCons(spans, q);
      if spans[0].end <= q {
        PlaceAmongKept(length, spans[0].end, spans[1..], q);
      } else {
        NoneBefore(spans, q, length);
        assert Positions(length)[from..spans[0].start][q - from] == q;
      }
    }
  }

  lemma {:induction false} NoneBefore(spans: seq<Span>, q: nat, length: nat)
    requires Found(spans, length) && (spans != [] ==> q < spans[0].end)
    ensures LengthBefore(spans, q) == 0
    decreases |spans|
  {
    if |spans| > 1 {
      assert spans[0].end <= spans[1].start < spans[1].end;
    }
    if spans != [] {
      NoneBefore(spans[1..], q, length);
    }
  }

  /** An element in front of the later spans and behind the earlier ones is not removed. */
  lemma {:induction false} Survives(text: seq<int>, spans: seq<Span>, k: nat, place: nat, length: nat)
    requires Found(spans, length) && k <= |spans| && place < |text|
    requires forall i | k <= i < |spans| :: place < spans[i].start
    requires forall i | 0 <= i < k :: spans[i].end <= place
    ensures text[place] in RemoveAll(text, spans)
    decreases |spans|
  {
    if spans != [] {
      var last := spans[|spans| - 1];
      var shorter := Remove(text, last);
      if k < |spans| {
        assert shorter[place] == text[place];
        Survives(shorter, spans[..|spans| - 1], k, place, length);
      } else {
        assert shorter[place - (last.end - last.start)] == text[place];
        Survives(shorter, spans[..|spans| - 1], |spans| - 1, place - (last.end - last.start), length);
      }
    }
  }

  /** If some video precedes some image, the first such image keeps its first character. */
  lemma {:induction false} MisplacedImageSurvives(images: seq<Span>, videos: seq<Span>, length: nat, k: nat, j: nat)
    requires Found(images, length) && Found(videos, length) && Apart(images, videos)
    requires k < |images| && j < |videos| && videos[j].end <= images[k].start
    requires forall i, m | 0 <= i < k && 0 <= m < |videos| :: images[i].end <= videos[m].start
    ensures images[k].start in RemoveAll(Positions(length), images + videos)
  {
    var q := images[k].start;
    assert !Covers(videos, q) by {
      forall m | 0 <= m < |videos|
        ensures !(videos[m].start <= q < videos[m].end)
      {
        assert images[k].end <= videos[m].start || videos[m].end <= q;
      }
    }
    RemoveAllConcat(Positions(length), images, videos);
    BackToFrontIsRight(Positions(length), videos);
    PlaceAmongKept(length, 0, videos, q);
    SomeLengthBefore(videos, j, q, length);
    var place := q - LengthBefore(videos, q);
    forall i | 0 <= i < k
      ensures images[i].end <= place
    {
      assert images[i].end <= q;
      LengthBeforeBound(videos, images[i].end, q, length);
    }
    Survives(RemoveAll(Positions(length), videos), images, k, place, length);
  }

  lemma {:induction false} FirstMisplaced(images: seq<Span>, videos: seq<Span>, n: nat) returns (k: nat, j: nat)
    requires Apart(images, videos) && n <= |images|
    requires exists i, m | 0 <= i < n && 0 <= m < |videos| :: images[i].end > videos[m].start
    ensures k < |images| && j < |videos| && videos[j].end <= images[k].start
    ensures forall i, m | 0 <= i < k && 0 <= m < |videos| :: images[i].end <= videos[m].start
  {
    if i, m :| 0 <= i < n - 1 && 0 <= m < |videos| && images[i].end > videos[m].start {
      k, j := FirstMisplaced(images, videos, n - 1);
    } else {
      k := n - 1;
      j :| 0 <= j < |videos| && images[k].end > videos[j].start;
    }
  }

  /** Removing the images and videos of a text back to front, all images before all videos as the list has them,
      takes out exactly what they cover if and only if that is the order in which they are found. */
  lemma {:induction false} ExtractionIsExactExactlyWhen(images: seq<Span>, videos: seq<Span>, length: nat)
    requires Found(images, length) && Found(videos, length) && Apart(images, videos)
    ensures RemovesExactly(length, images + videos) <==> ImagesFirst(images, videos)
  {
    if ImagesFirst(images, videos) {
      FoundTogether(images, videos, length);
      BackToFrontIsRight(Positions(length), images + videos);
      BetweenPositions(length, 0, images + videos);
    } else {
      var k, j := FirstMisplaced(images, videos, |images|);
      MisplacedImageSurvives(images, videos, length, k, j);
      assert images[k] == (images + videos)[k];
      assert Covers(images + videos, images[k].start);
    }
  }

  lemma {:induction false} RemovePair<T>(text: seq<T>, a: Span, b: Span)
    ensures RemoveAll(text, [a, b]) == Remove(Remove(text, b), a)
  {
    assert [a, b][..1] == [a] && [a][..0] == [];
    assert RemoveAll(text, [a, b]) == RemoveAll(Remove(text, b), [a]);
    assert RemoveAll(Remove(text, b), [a]) == RemoveAll(Remove(Remove(text, b), a), []);
  }

  lemma {:induction false} RemovedPositions(length: nat, span: Span)
    requires span.start < span.end <= length
    ensures |Remove(Positions(length), span)| == length - (span.end - span.start)
    ensures forall i | 0 <= i < length - (span.end - span.start) ::
      Remove(Positions(length), span)[i] == if i < span.start then i else i + (span.end - span.start)
  {
    RemovedIs(Positions(length), span);
  }

  lemma {:induction false} CoversPair(a: Span, b: Span, p: int)
    ensures Covers([a, b], p) <==> (a.start <= p < a.end || b.start <= p < b.end)
  {
    assert [a, b][0] == a && [a, b][1] == b;
  }

  /** The two expressions can match overlapping text.  A video inside an image leaves the image's span too long by
      the video's length: the characters that follow go too, so that the right ones go only if none follow. */
  lemma {:induction false} NestedVideoExactlyWhen(image: Span, video: Span, length: nat)
    requires image.start <= video.start < video.end <= image.end <= length
    ensures RemovesExactly(length, [image, video]) <==> length == image.end
  {
    RemovePair(Positions(length), image, video);
    RemovedPositions(length, video);
    var once := Remove(Positions(length), video);
    var gap := video.end - video.start;
    var twice := Remove(once, image);
    forall p
      ensures p in twice <==> 0 <= p < image.start || image.end + gap <= p < length
    {
      if 0 <= p < image.start {
        assert twice[p] == p;
      } else if image.end + gap <= p < length {
        assert twice[p - gap - (image.end - image.start)] == p;
      }
    }
    assert twice == RemoveAll(Positions(length), [image, video]);
    forall p
      ensures Covers([image, video], p) <==> image.start <= p < image.end
    {
      CoversPair(image, video, p);
    }
    if length > image.end {
      assert image.end !in twice && !Covers([image, video], image.end);
      assert !RemovesExactly(length, [image, video]);
    } else {
      assert RemovesExactly(length, [image, video]);
    }
  }

  /** The cleaned text before its ends are stripped, and the paths of the tags that were taken out. */
  method ExtractMediaTags(text: string, images: seq<Span>, videos: seq<Span>)
    returns (cleaned: string, paths: seq<string>)
    ensures cleaned == RemoveAll(text, LocalOnes(images + videos))
    ensures paths == Paths(LocalOnes(images + videos))
  {
    var matches := Local(images + videos);
    paths := [];
    for i := 0 to |matches|
      invariant paths == Paths(matches[..i])
    {
      paths := paths + [matches[i].path];
    }
    assert matches[..|matches|] == matches;
    assert matches[..0] == [];
    cleaned := text;
    var n := |matches|;
    while n > 0
      invariant 0 <= n <= |matches| && RemoveAll(cleaned, matches[..n]) == RemoveAll(text, matches)
    {
      n := n - 1;
      assert matches[..n + 1][..n] == matches[..n];
      cleaned := cleaned[..Min(matches[n].start, |cleaned|)] + cleaned[Min(matches[n].end, |cleaned|)..];
    }
  }

  method Local(spans: seq<Span>) returns (local: seq<Span>)
    ensures local == LocalOnes(spans)
  {
    local := [];
    for i := 0 to |spans|
      invariant local == LocalOnes(spans[..i])
    {
      assert spans[..i + 1][..i] == spans[..i];
      if spans[i].local {
        local := local + [spans[i]];
      }
    }
    assert spans[..|spans|] == spans;
  }

  lemma {:induction false} LocalConcat(a: seq<Span>, b: seq<Span>)
    ensures LocalOnes(a + b) == LocalOnes(a) + LocalOnes(b)
  {
    if b == [] {
      assert a + b == a;
    } else {
      assert (a + b)[..|a + b| - 1] == a + b[..|b| - 1];
      LocalConcat(a, b[..|b| - 1]);
    }
  }

  lemma {:induction false} LocalAdds(spans: seq<Span>)
    ensures forall span <- LocalOnes(spans) :: span in spans && span.local
  {
    if spans != [] {
      LocalAdds(spans[..|spans| - 1]);
    }
  }

  lemma {:induction false} LocalStaysFound(spans: seq<Span>, length: nat)
    requires Found(spans, length)
    ensures Found(LocalOnes(spans), length)
  {
    if spans != [] {
      var before, last := spans[..|spans| - 1], spans[|spans| - 1];
      LocalStaysFound(before, length);
      LocalAdds(before);
      LastComesLast(spans, length);
      FoundGrows(LocalOnes(before), last, length);
    }
  }

  lemma {:induction false} LastComesLast(spans: seq<Span>, length: nat)
    requires spans != [] && Found(spans, length)
    ensures forall span <- spans[..|spans| - 1] :: span.end <= spans[|spans| - 1].start
  {
  }

  lemma {:induction false} FoundGrows(spans: seq<Span>, last: Span, length: nat)
    requires Found(spans, length) && last.start < last.end <= length
    requires forall span <- spans :: span.end <= last.start
    ensures Found(spans + [last], length)
  {
  }

  lemma {:induction false} LocalStayApart(images: seq<Span>, videos: seq<Span>)
    requires Apart(images, videos)
    ensures Apart(LocalOnes(images), LocalOnes(videos))
  {
    LocalAdds(images);
    LocalAdds(videos);
    forall i, j | 0 <= i < |LocalOnes(images)| && 0 <= j < |LocalOnes(videos)|
      ensures LocalOnes(images)[i].end <= LocalOnes(videos)[j].start
           || LocalOnes(videos)[j].end <= LocalOnes(images)[i].start
    {
      assert LocalOnes(images)[i] in images && LocalOnes(videos)[j] in videos;
    }
  }

  /** So the cleaned text consists of the characters that no local tag covers, in order, if and only if all local
      images come before all local videos. */
  lemma {:induction false} CleanedTextExactlyWhen(text: string, images: seq<Span>, videos: seq<Span>)
    requires Found(images, |text|) && Found(videos, |text|) && Apart(images, videos)
    ensures
      var local := LocalOnes(images + videos);
      && (forall p <- RemoveAll(Positions(|text|), local) :: 0 <= p < |text|)
      && RemoveAll(text, local) == At(text, RemoveAll(Positions(|text|), local))
      && (RemovesExactly(|text|, local) <==> ImagesFirst(LocalOnes(images), LocalOnes(videos)))
  {
    LocalConcat(images, videos);
    LocalStaysFound(images, |text|);
    LocalStaysFound(videos, |text|);
    LocalStayApart(images, videos);
    ExtractionIsExactExactlyWhen(LocalOnes(images), LocalOnes(videos), |text|);
    RemovalIsPositional(text, Positions(|text|), LocalOnes(images + videos));
    assert At(text, Positions(|text|)) == text;
  }

  // ---------------------------------------------------------------- splitting in order

  /** A stretch of text, or a tag. */
  datatype Piece = Gap(text: string) | Media(text: string, path: string)

  datatype Block = TextBlock(text: string) | FileBlock(source: string)

  function Slice(text: string, from: nat, to: nat): string {
    if from <= to <= |text| then text[from..to] else if from <= |text| < to then text[from..] else ""
  }

  /** The text cut up at the spans, in the order they are given. */
  function Pieces(text: string, from: nat, spans: seq<Span>): seq<Piece>
    decreases |spans|
  {
    if spans == [] then [Gap(Slice(text, from, |text|))]
    else
      [Gap(Slice(text, from, spans[0].start)), Media(Slice(text, spans[0].start, spans[0].end), spans[0].path)]
      + Pieces(text, spans[0].end, spans[1..])
  }

  function Tiled(pieces: seq<Piece>): string {
    if pieces == [] then "" else pieces[0].text + Tiled(pieces[1..])
  }

  /** What the spans cover twice, with a text that has been consumed up to `from`. */
  function Overlap(from: nat, spans: seq<Span>): nat
    decreases |spans|
  {
    if spans == [] then 0
    else (if from > spans[0].start then from - spans[0].start else 0) + Overlap(spans[0].end, spans[1..])
  }

  predicate Within(spans: seq<Span>, length: nat) {
    forall i | 0 <= i < |spans| :: spans[i].start < spans[i].end <= length
  }

  lemma {:induction false} TiledCons(a: Piece, b: Piece, rest: seq<Piece>)
    ensures Tiled([a, b] + rest) == a.text + b.text + Tiled(rest)
  {
    assert ([a, b] + rest)[1..] == [b] + rest;
    assert ([b] + rest)[1..] == rest;
  }

  lemma {:induction false} TiledSize(text: string, from: nat, spans: seq<Span>)
    requires from <= |text| && Within(spans, |text|)
    ensures |Tiled(Pieces(text, from, spans))| == |text| - from + Overlap(from, spans)
    decreases |spans|
  {
    if spans == [] {
      assert Pieces(text, from, spans)[1..] == [];
    } else {
      var first := spans[0];
      TiledSize(text, first.end, spans[1..]);
      TiledCons(Gap(Slice(text, from, first.start)), Media(Slice(text, first.start, first.end), first.path),
                Pieces(text, first.end, spans[1..]));
    }
  }

  lemma {:induction false} TilesWithoutOverlap(text: string, from: nat, spans: seq<Span>)
    requires from <= |text| && Within(spans, |text|) && Overlap(from, spans) == 0
    ensures Tiled(Pieces(text, from, spans)) == text[from..]
    decreases |spans|
  {
    if spans == [] {
      assert Pieces(text, from, spans)[1..] == [];
      assert text[from..|text|] == text[from..];
      assert text[from..] + "" == text[from..];
    } else {
      var first := spans[0];
      TilesWithoutOverlap(text, first.end, spans[1..]);
      TiledCons(Gap(Slice(text, from, first.start)), Media(Slice(text, first.start, first.end), first.path),
                Pieces(text, first.end, spans[1..]));
      SlicesJoin(text, from, first.start, first.end);
    }
  }

  lemma {:induction false} SlicesJoin(text: string, from: nat, start: nat, end: nat)
    requires from <= start <= end <= |text|
    ensures text[from..] == text[from..start] + text[start..end] + text[end..]
  {
  }

  /** The pieces put together again are the text, in its own order, if and only if no two tags overlap. */
  lemma {:induction false} PiecesTileExactlyWhen(text: string, spans: seq<Span>)
    requires Within(spans, |text|)
    ensures Tiled(Pieces(text, 0, spans)) == text <==> Overlap(0, spans) == 0
  {
    TiledSize(text, 0, spans);
    if Overlap(0, spans) == 0 {
      TilesWithoutOverlap(text, 0, spans);
      assert text[0..] == text;
    }
  }

  // ---------------------------------------------------------------- sorting by place

  function InsertByStart(span: Span, sorted: seq<Span>): seq<Span> {
    if sorted == [] || span.start <= sorted[0].start then [span] + sorted
    else [sorted[0]] + InsertByStart(span, sorted[1..])
  }

  function SortedByStart(spans: seq<Span>): seq<Span> {
    if spans == [] then [] else InsertByStart(spans[0], SortedByStart(spans[1..]))
  }

  predicate Disjoint(a: Span, b: Span) {
    a.end <= b.start || b.end <= a.start
  }

  lemma {:induction false} InsertHas(span: Span, sorted: seq<Span>)
    ensures forall x :: x in InsertByStart(span, sorted) <==> x == span || x in sorted
  {
    if sorted != [] && span.start > sorted[0].start {
      InsertHas(span, sorted[1..]);
      assert forall x :: x in sorted <==> x == sorted[0] || x in sorted[1..];
    }
  }

  lemma {:induction false} InsertKeepsFound(span: Span, sorted: seq<Span>, length: nat)
    requires Found(sorted, length) && span.start < span.end <= length
    requires forall x <- sorted :: Disjoint(span, x)
    ensures Found(InsertByStart(span, sorted), length)
  {
    if sorted != [] {
      assert Disjoint(span, sorted[0]);
      if span.start > sorted[0].start {
        InsertKeepsFound(span, sorted[1..], length);
        InsertHas(span, sorted[1..]);
        var rest := InsertByStart(span, sorted[1..]);
        forall k | 0 <= k < |rest|
          ensures sorted[0].end <= rest[k].start
        {
          assert rest[k] in rest;
        }
      }
    }
  }

  lemma {:induction false} SortingFinds(spans: seq<Span>, length: nat)
    requires Within(spans, length)
    requires forall i, j | 0 <= i < j < |spans| :: Disjoint(spans[i], spans[j])
    ensures Found(SortedByStart(spans), length)
    ensures forall x :: x in SortedByStart(spans) <==> x in spans
  {
    if spans != [] {
      SortingFinds(spans[1..], length);
      forall x <- SortedByStart(spans[1..])
        ensures Disjoint(spans[0], x)
      {
        var k :| 0 <= k < |spans[1..]| && spans[1..][k] == x;
        assert Disjoint(spans[0], spans[k + 1]);
      }
      InsertKeepsFound(spans[0], SortedByStart(spans[1..]), length);
      InsertHas(spans[0], SortedByStart(spans[1..]));
      assert forall x :: x in spans <==> x == spans[0] || x in spans[1..];
    }
  }

  lemma {:induction false} FoundOnesDoNotOverlap(from: nat, spans: seq<Span>, length: nat)
    requires Found(spans, length) && (spans != [] ==> from <= spans[0].start)
    ensures Overlap(from, spans) == 0
    decreases |spans|
  {
    if spans != [] {
      FoundOnesDoNotOverlap(spans[0].end, spans[1..], length);
    }
  }

  /** Splitting sorts first, so tags that do not overlap are taken in source order and nothing of the text is lost or
      repeated, in whatever order images and videos come. */
  lemma {:induction false} SplittingTiles(text: string, images: seq<Span>, videos: seq<Span>)
    requires Found(images, |text|) && Found(videos, |text|) && Apart(images, videos)
    ensures Found(SortedByStart(LocalOnes(images + videos)), |text|)
    ensures Tiled(Pieces(text, 0, SortedByStart(LocalOnes(images + videos)))) == text
  {
    LocalConcat(images, videos);
    LocalStaysFound(images, |text|);
    LocalStaysFound(videos, |text|);
    LocalStayApart(images, videos);
    AllDisjoint(LocalOnes(images), LocalOnes(videos), |text|);
    var sorted := SortedByStart(LocalOnes(images + videos));
    SortingFinds(LocalOnes(images + videos), |text|);
    FoundOnesDoNotOverlap(0, sorted, |text|);
    PiecesTileExactlyWhen(text, sorted);
  }

  lemma {:induction false} AllDisjoint(images: seq<Span>, videos: seq<Span>, length: nat)
    requires Found(images, length) && Found(videos, length) && Apart(images, videos)
    ensures Within(images + videos, length)
    ensures
      var both := images + videos;
      forall i, j | 0 <= i < j < |both| :: Disjoint(both[i], both[j])
  {
    var both := images + videos;
    forall i, j | 0 <= i < j < |both|
      ensures Disjoint(both[i], both[j])
    {
      if i < |images| <= j {
        assert both[i] == images[i] && both[j] == videos[j - |images|];
      }
    }
  }

  /** The blocks shown: text that is blank once stripped is left out. */
  function Shown(pieces: seq<Piece>, strip: string -> string): seq<Block> {
    if pieces == [] then []
    else
      (match pieces[0]
       case Gap(text) => GapBlocks(strip(text))
       case Media(_, path) => [FileBlock(path)])
      + Shown(pieces[1..], strip)
  }

  method SplitTextAndMedia(text: string, images: seq<Span>, videos: seq<Span>, strip: string -> string)
    returns (blocks: seq<Block>)
    ensures
      var local := LocalOnes(images + videos);
      blocks == if local == [] then [TextBlock(text)] else Shown(Pieces(text, 0, SortedByStart(local)), strip)
  {
    var matches := Local(images + videos);
    if matches == [] {
      return [TextBlock(text)];
    }
    matches := SortedByStart(matches);
    SortedNonempty(LocalOnes(images + videos));
    blocks := [];
    var from := 0;
    for i := 0 to |matches|
      invariant blocks + Shown(Pieces(text, from, matches[i..]), strip) == Shown(Pieces(text, 0, matches), strip)
    {
      assert matches[i..][0] == matches[i] && matches[i..][1..] == matches[i + 1..];
      ShownNext(text, from, matches[i..], strip);
      ghost var rest := Shown(Pieces(text, matches[i].end, matches[i + 1..]), strip);
      Regroup(blocks, GapBlocks(strip(Slice(text, from, matches[i].start))), [FileBlock(matches[i].path)], rest);
      blocks := WithGap(blocks, strip(Slice(text, from, matches[i].start)));
      blocks := blocks + [FileBlock(matches[i].path)];
      from := matches[i].end;
    }
    ShownLast(text, from, strip);
    blocks := WithGap(blocks, strip(Slice(text, from, |text|)));
  }

  function GapBlocks(stripped: string): seq<Block> {
    if stripped == "" then [] else [TextBlock(stripped)]
  }

  method WithGap(blocks: seq<Block>, stripped: string) returns (more: seq<Block>)
    ensures more == blocks + GapBlocks(stripped)
  {
    more := blocks;
    if stripped != "" {
      more := more + [TextBlock(stripped)];
    }
  }

  lemma {:induction false} Regroup(a: seq<Block>, b: seq<Block>, c: seq<Block>, d: seq<Block>)
    ensures a + (b + c + d) == a + b + c + d
  {
  }

  lemma {:induction false} SortedNonempty(spans: seq<Span>)
    ensures |SortedByStart(spans)| == |spans|
  {
    if spans != [] {
      SortedNonempty(spans[1..]);
      InsertSize(spans[0], SortedByStart(spans[1..]));
    }
  }

  lemma {:induction false} InsertSize(span: Span, sorted: seq<Span>)
    ensures |InsertByStart(span, sorted)| == |sorted| + 1
  {
    if sorted != [] && span.start > sorted[0].start {
      InsertSize(span, sorted[1..]);
    }
  }

  lemma {:induction false} ShownNext(text: string, from: nat, spans: seq<Span>, strip: string -> string)
    requires spans != []
    ensures
      Shown(Pieces(text, from, spans), strip)
      == GapBlocks(strip(Slice(text, from, spans[0].start))) + [FileBlock(spans[0].path)]
         + Shown(Pieces(text, spans[0].end, spans[1..]), strip)
  {
    var pieces, rest := Pieces(text, from, spans), Pieces(text, spans[0].end, spans[1..]);
    assert pieces[1..][1..] == rest;
    assert pieces[1..][0] == pieces[1];
  }

  lemma {:induction false} ShownLast(text: string, from: nat, strip: string -> string)
    ensures
      Shown(Pieces(text, from, []), strip) == GapBlocks(strip(Slice(text, from, |text|)))
  {
    assert Pieces(text, from, [])[1..] == [];
  }

  // ---------------------------------------------------------------- what the blocks hold

  /** The sources of the file blocks, and the texts of the text blocks, in order. */
  function Sources(blocks: seq<Block>): seq<string> {
    if blocks == [] then []
    else (if blocks[0].FileBlock? then [blocks[0].source] else []) + Sources(blocks[1..])
  }

  function Texts(blocks: seq<Block>): seq<string> {
    if blocks == [] then []
    else (if blocks[0].TextBlock? then [blocks[0].text] else []) + Texts(blocks[1..])
  }

  lemma {:induction false} HoldsConcat(a: seq<Block>, b: seq<Block>)
    ensures Sources(a + b) == Sources(a) + Sources(b)
    ensures Texts(a + b) == Texts(a) + Texts(b)
  {
    if a == [] {
      assert a + b == b;
    } else {
      assert (a + b)[0] == a[0] && (a + b)[1..] == a[1..] + b;
      HoldsConcat(a[1..], b);
    }
  }

  /** The stretches of text around tags that follow each other, stripped, without the blank ones. */
  function Stretches(text: string, from: nat, spans: seq<Span>, strip: string -> string): seq<string>
    requires from <= |text| && Found(spans, |text|) && (spans != [] ==> from <= spans[0].start)
    decreases |spans|
  {
    var stretch := strip(text[from..if spans == [] then |text| else spans[0].start]);
    (if stretch == "" then [] else [stretch])
    + (if spans == [] then [] else Stretches(text, spans[0].end, spans[1..], strip))
  }

  /** Block by block: the text up to the next tag unless it is blank, then the tag's file, and so on; after the last
      tag the rest of the text unless it is blank. */
  lemma {:induction false} BlocksAlternate(text: string, from: nat, spans: seq<Span>, strip: string -> string)
    requires from <= |text| && Found(spans, |text|) && (spans != [] ==> from <= spans[0].start)
    ensures
      var stretch := strip(text[from..if spans == [] then |text| else spans[0].start]);
      Shown(Pieces(text, from, spans), strip)
      == (if stretch == "" then [] else [TextBlock(stretch)])
         + if spans == [] then []
           else [FileBlock(spans[0].path)] + Shown(Pieces(text, spans[0].end, spans[1..]), strip)
  {
    if spans == [] {
      ShownLast(text, from, strip);
    } else {
      ShownNext(text, from, spans, strip);
    }
  }

  /** What a stretch, a file and the blocks after them hold. */
  lemma {:induction false} HeldByBlocks(stretch: string, path: string, rest: seq<Block>)
    ensures
      var first := if stretch == "" then [] else [TextBlock(stretch)];
      && Sources(first + ([FileBlock(path)] + rest)) == [path] + Sources(rest)
      && Texts(first + ([FileBlock(path)] + rest)) == (if stretch == "" then [] else [stretch]) + Texts(rest)
  {
    var first := if stretch == "" then [] else [TextBlock(stretch)];
    var file := [FileBlock(path)];
    assert file[1..] == [] && Sources(file) == [path] && Texts(file) == [];
    assert first != [] ==> first[1..] == [];
    HoldsConcat(first, file + rest);
    HoldsConcat(file, rest);
  }

  /** Every tag's path is in the blocks, and every stretch that is not blank, each kind in source order. */
  lemma {:induction false} BlocksHold(text: string, from: nat, spans: seq<Span>, strip: string -> string)
    requires from <= |text| && Found(spans, |text|) && (spans != [] ==> from <= spans[0].start)
    ensures Sources(Shown(Pieces(text, from, spans), strip)) == Paths(spans)
    ensures Texts(Shown(Pieces(text, from, spans), strip)) == Stretches(text, from, spans, strip)
    decreases |spans|
  {
    BlocksAlternate(text, from, spans, strip);
    if spans == [] {
      LastBlocksHold(strip(text[from..]));
      assert text[from..] == text[from..|text|];
    } else {
      BlocksHold(text, spans[0].end, spans[1..], strip);
      HeldByBlocks(strip(text[from..spans[0].start]), spans[0].path,
                   Shown(Pieces(text, spans[0].end, spans[1..]), strip));
      FirstPath(spans);
    }
  }

  lemma {:induction false} FirstPath(spans: seq<Span>)
    requires spans != []
    ensures Paths(spans) == [spans[0].path] + Paths(spans[1..])
  {
  }

  lemma {:induction false} LastBlocksHold(stretch: string)
    ensures
      var last := if stretch == "" then [] else [TextBlock(stretch)];
      Sources(last) == [] && Texts(last) == if stretch == "" then [] else [stretch]
  {
    if stretch != "" {
      assert [TextBlock(stretch)][1..] == [];
    }
  }

  /** So the blocks of a text with local tags hold their paths and the text around them, in source order. */
  lemma {:induction false} SplittingShows(text: string, images: seq<Span>, videos: seq<Span>, strip: string -> string)
    requires Found(images, |text|) && Found(videos, |text|) && Apart(images, videos)
    ensures
      var tags := SortedByStart(LocalOnes(images + videos));
      var blocks := Shown(Pieces(text, 0, tags), strip);
      && Found(tags, |text|) && multiset(tags) == multiset(LocalOnes(images + videos))
      && Sources(blocks) == Paths(tags)
      && Texts(blocks) == Stretches(text, 0, tags, strip)
  {
    SplittingTiles(text, images, videos);
    SortingPermutes(LocalOnes(images + videos));
    BlocksHold(text, 0, SortedByStart(LocalOnes(images + videos)), strip);
  }

  lemma {:induction false} SortingPermutes(spans: seq<Span>)
    ensures multiset(SortedByStart(spans)) == multiset(spans)
  {
    if spans != [] {
      SortingPermutes(spans[1..]);
      InsertPermutes(spans[0], SortedByStart(spans[1..]));
      assert spans == [spans[0]] + spans[1..];
    }
  }

  lemma {:induction false} InsertPermutes(span: Span, sorted: seq<Span>)
    ensures multiset(InsertByStart(span, sorted)) == multiset{span} + multiset(sorted)
  {
    if sorted != [] && span.start > sorted[0].start {
      InsertPermutes(span, sorted[1..]);
      assert sorted == [sorted[0]] + sorted[1..];
    }
  }

  /** The local tags are those whose path is local, in the order found. */
  lemma {:induction false} LocalOnesAre(spans: seq<Span>, span: Span)
    ensures LocalOnes([]) == []
    ensures LocalOnes(spans + [span]) == if span.local then LocalOnes(spans) + [span] else LocalOnes(spans)
  {
    assert (spans + [span])[..|spans|] == spans;
  }
}
