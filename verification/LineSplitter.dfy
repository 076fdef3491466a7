/** Reassembling lines from the chunks that reads of a pipe return. */
module LineSplitter {

  datatype Option<+T> = None | Some(value: T)

  type Byte = b: int | 0 <= b < 256

  type Bytes = seq<Byte>

  const LF: Byte := 10

  const CR: Byte := 13

  predicate Starts(s: Bytes, b: Byte) {
    s != [] && s[0] == b
  }

  predicate Ends(s: Bytes, b: Byte) {
    s != [] && s[|s| - 1] == b
  }

  predicate Terminated(s: Bytes) {
    Ends(s, LF) || Ends(s, CR)
  }

  /** No line break anywhere. */
  predicate Plain(s: Bytes) {
    LF !in s && CR !in s
  }

  // ---------------------------------------------------------------- splitlines(keepends=True)

  /** Length of the first line, with its line break if it has one. */
  function LineLength(s: Bytes): (n: nat)
    ensures n <= |s| && (s != [] ==> n > 0)
  {
    if s == [] then 0
    else if s[0] == LF then 1
    else if s[0] == CR then (if Starts(s[1..], LF) then 2 else 1)
    else 1 + LineLength(s[1..])
  }

  function SplitLines(s: Bytes): seq<Bytes>
    decreases |s|
  {
    if s == [] then [] else [s[..LineLength(s)]] + SplitLines(s[LineLength(s)..])
  }

  function Joined(pieces: seq<Bytes>): Bytes {
    if pieces == [] then [] else Joined(pieces[..|pieces| - 1]) + pieces[|pieces| - 1]
  }

  /** One line: plain up to a single line feed, a single carriage return, or the two together. */
  predicate IsLine(s: Bytes) {
    && Terminated(s)
    && var n := if |s| > 1 && s[|s| - 2] == CR && Ends(s, LF) then |s| - 2 else |s| - 1;
       Plain(s[..n])
  }

  /** No line feed begins a line right after a line that ends in a carriage return. */
  predicate Whole(lines: seq<Bytes>) {
    forall i | 0 < i < |lines| :: !(Ends(lines[i - 1], CR) && Starts(lines[i], LF))
  }

  /** `lines` and the unfinished `rest` cut `s` up at its line breaks. */
  predicate IsCut(lines: seq<Bytes>, rest: Bytes, s: Bytes) {
    && Joined(lines) + rest == s
    && AllLines(lines)
    && Plain(rest)
  }

  predicate AllLines(lines: seq<Bytes>) {
    forall line <- lines :: IsLine(line)
  }

  lemma {:induction false} Regroup(a: Bytes, b: Bytes, c: Bytes)
    ensures a + b + c == a + (b + c)
  {
  }

  lemma {:induction false} JoinedConcat(a: seq<Bytes>, b: seq<Bytes>)
    ensures Joined(a + b) == Joined(a) + Joined(b)
  {
    if b == [] {
      assert a + b == a;
    } else {
      assert (a + b)[..|a + b| - 1] == a + b[..|b| - 1];
      JoinedConcat(a, b[..|b| - 1]);
    }
  }

  lemma {:induction false} JoinedCons(first: Bytes, rest: seq<Bytes>)
    ensures Joined([first] + rest) == first + Joined(rest)
  {
    JoinedConcat([first], rest);
    assert Joined([first]) == first by {
      assert [first][..0] == [];
    }
  }

  lemma {:induction false} FirstLine(s: Bytes)
    requires s != []
    ensures
      var n := LineLength(s);
      && (n < |s| ==> IsLine(s[..n]))
      && (IsLine(s[..n]) || Plain(s[..n]))
      && (Ends(s[..n], CR) ==> !Starts(s[n..], LF))
  {
    var n := LineLength(s);
    if s[0] != LF && s[0] != CR {
      if s[1..] == [] {
        assert s[..n] == [s[0]];
      } else {
        FirstLine(s[1..]);
        PlainFirst(s[0], s[1..][..n - 1]);
        assert s[..n] == [s[0]] + s[1..][..n - 1];
        assert s[n..] == s[1..][n - 1..];
      }
    } else if n == 2 {
      assert s[..2] == [CR, LF];
    }
  }

  lemma {:induction false} PlainFirst(b: Byte, line: Bytes)
    requires b != LF && b != CR && line != []
    ensures IsLine([b] + line) <==> IsLine(line)
    ensures Plain([b] + line) <==> Plain(line)
    ensures Ends([b] + line, CR) <==> Ends(line, CR)
  {
    var s := [b] + line;
    if |line| > 1 {
      assert s[..|s| - 2] == [b] + line[..|line| - 2];
    }
    assert s[..|s| - 1] == [b] + line[..|line| - 1];
  }

  /** Every piece but possibly the last is a line, and none is torn. */
  lemma {:induction false} SplitLinesCut(s: Bytes)
    ensures
      var pieces := SplitLines(s);
      && (forall i | 0 <= i < |pieces| - 1 :: IsLine(pieces[i]))
      && (pieces != [] ==>
        var last := pieces[|pieces| - 1];
        last != [] && (IsLine(last) || Plain(last)))
      && Whole(pieces)
      && (s != [] ==> pieces != [] && pieces[0] != [] && pieces[0][0] == s[0])
    decreases |s|
  {
    if s != [] {
      var n := LineLength(s);
      FirstLine(s);
      SplitLinesCut(s[n..]);
      var pieces, rest := SplitLines(s), SplitLines(s[n..]);
      assert pieces == [s[..n]] + rest;
      assert forall i | 0 < i < |pieces| :: pieces[i] == rest[i - 1];
    }
  }

  // ---------------------------------------------------------------- a cut is determined by what it cuts

  lemma {:induction false} FirstOfCut(line: Bytes, after: Bytes)
    requires IsLine(line) && !(Ends(line, CR) && Starts(after, LF))
    ensures LineLength(line + after) == |line|
  {
    var s := line + after;
    LineHead(line);
    if |line| == 1 {
      assert s[1..] == after;
    } else if line == [CR, LF] {
      assert s[1..][0] == LF;
    } else {
      assert line == [line[0]] + line[1..];
      PlainFirst(line[0], line[1..]);
      FirstOfCut(line[1..], after);
      assert s[1..] == line[1..] + after;
    }
  }

  lemma {:induction false} LineHead(line: Bytes)
    requires IsLine(line)
    ensures |line| == 1 || line == [CR, LF] || (line[0] != CR && line[0] != LF)
  {
    if |line| > 1 {
      var n := if line[|line| - 2] == CR && Ends(line, LF) then |line| - 2 else |line| - 1;
      if n > 0 {
        assert line[..n][0] in line[..n];
      }
    }
  }

  lemma {:induction false} PlainLength(s: Bytes)
    requires Plain(s)
    ensures LineLength(s) == |s|
  {
    if s != [] {
      assert s == [s[0]] + s[1..];
      PlainLength(s[1..]);
    }
  }

  function WithRest(lines: seq<Bytes>, rest: Bytes): seq<Bytes> {
    if rest == [] then lines else lines + [rest]
  }

  /** A cut without torn breaks is what splitting the whole text gives. */
  lemma {:induction false} WholeCutIsSplit(lines: seq<Bytes>, rest: Bytes, s: Bytes)
    requires IsCut(lines, rest, s) && Whole(lines)
    ensures SplitLines(s) == WithRest(lines, rest)
    decreases |lines|
  {
    if lines == [] {
      assert s == rest;
      PlainIsOnePiece(s);
    } else {
      var first, others := lines[0], lines[1..];
      var after := Joined(others) + rest;
      CutTail(lines, rest, s);
      SplitFirst(first, after);
      WholeCutIsSplit(others, rest, after);
      assert [first] + (others + [rest]) == lines + [rest];
    }
  }

  lemma {:induction false} PlainIsOnePiece(s: Bytes)
    requires Plain(s)
    ensures SplitLines(s) == WithRest([], s)
  {
    PlainLength(s);
    if s != [] {
      assert s[..|s|] == s && SplitLines(s[|s|..]) == [];
    }
  }

  lemma {:induction false} SplitFirst(line: Bytes, after: Bytes)
    requires IsLine(line) && !(Ends(line, CR) && Starts(after, LF))
    ensures SplitLines(line + after) == [line] + SplitLines(after)
  {
    FirstOfCut(line, after);
    assert (line + after)[..|line|] == line && (line + after)[|line|..] == after;
  }

  lemma {:induction false} CutTail(lines: seq<Bytes>, rest: Bytes, s: Bytes)
    requires IsCut(lines, rest, s) && Whole(lines) && lines != []
    ensures
      var after := Joined(lines[1..]) + rest;
      && s == lines[0] + after && IsCut(lines[1..], rest, after) && Whole(lines[1..])
      && !(Ends(lines[0], CR) && Starts(after, LF))
  {
    var others := lines[1..];
    assert lines == [lines[0]] + others;
    JoinedCons(lines[0], others);
    if others != [] {
      assert others == [others[0]] + others[1..];
      JoinedCons(others[0], others[1..]);
      assert others[0] in lines && lines[1] == others[0];
      assert Joined(others)[0] == others[0][0];
    }
  }

  /** And the other way round: a torn break always shows. */
  lemma {:induction false} SplitIsWholeCut(lines: seq<Bytes>, rest: Bytes, s: Bytes)
    requires IsCut(lines, rest, s) && SplitLines(s) == WithRest(lines, rest)
    ensures Whole(lines)
  {
    SplitLinesCut(s);
    forall i | 0 < i < |lines|
      ensures !(Ends(lines[i - 1], CR) && Starts(lines[i], LF))
    {
      assert SplitLines(s)[i - 1] == lines[i - 1] && SplitLines(s)[i] == lines[i];
    }
  }
}
