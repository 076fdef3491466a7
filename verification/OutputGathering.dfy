/** Gathering a process's output: the container that turns chunks into lines, the loop that drains both pipes, and
    the poll loop around it. */
module OutputGathering {
  import opened LineSplitter

  /** The lines and the unfinished rest after a chunk's pieces have been taken in. */
  function Fed(emitted: seq<Bytes>, rest: Bytes, pieces: seq<Bytes>): (seq<Bytes>, Bytes)
    decreases |pieces|
  {
    if pieces == [] then (emitted, rest)
    else if Terminated(pieces[0]) then Fed(emitted + [rest + pieces[0]], [], pieces[1..])
    else Fed(emitted, rest + pieces[0], pieces[1..])
  }

  /** Some chunk begins with the line feed that belongs to a carriage return before it. */
  predicate Torn(chunks: seq<Bytes>) {
    chunks != [] &&
    (Torn(chunks[..|chunks| - 1]) || Parts(Joined(chunks[..|chunks| - 1]), chunks[|chunks| - 1]))
  }

  /** Cutting between the two pieces tears a line break apart. */
  predicate Parts(before: Bytes, after: Bytes) {
    Ends(before, CR) && Starts(after, LF)
  }

  lemma {:induction false} PlainPrefix(rest: Bytes, line: Bytes)
    requires Plain(rest) && line != []
    ensures IsLine(rest + line) <==> IsLine(line)
    ensures Plain(rest + line) <==> Plain(line)
    decreases |rest|
  {
    if rest == [] {
      assert rest + line == line;
    } else {
      assert rest == [rest[0]] + rest[1..];
      PlainPrefix(rest[1..], line);
      assert rest + line == [rest[0]] + (rest[1..] + line);
      PlainFirst(rest[0], rest[1..] + line);
    }
  }

  lemma {:induction false} EmittedOneMore(emitted: seq<Bytes>, rest: Bytes, before: Bytes, line: Bytes)
    requires IsCut(emitted, rest, before) && IsLine(line)
    ensures IsCut(emitted + [rest + line], [], before + line)
    ensures Whole(emitted + [rest + line]) <==> Whole(emitted) && !Parts(before, line)
  {
    CutOneMore(emitted, rest, before, line);
    EndOfCut(emitted, rest, before);
    WholeOneMore(emitted, rest + line);
    assert Starts(rest + line, LF) <==> rest == [] && Starts(line, LF) by {
      if rest != [] {
        assert rest[0] in rest && (rest + line)[0] == rest[0];
      } else {
        assert rest + line == line;
      }
    }
  }

  lemma {:induction false} CutOneMore(emitted: seq<Bytes>, rest: Bytes, before: Bytes, line: Bytes)
    requires IsCut(emitted, rest, before) && IsLine(line)
    ensures IsCut(emitted + [rest + line], [], before + line)
  {
    PlainPrefix(rest, line);
    JoinedOneMore(emitted, rest + line);
    Regroup(Joined(emitted), rest, line);
    assert forall l :: l in emitted + [rest + line] ==> l in emitted || l == rest + line;
  }

  lemma {:induction false} JoinedOneMore(pieces: seq<Bytes>, piece: Bytes)
    ensures Joined(pieces + [piece]) + [] == Joined(pieces) + piece
  {
    assert (pieces + [piece])[..|pieces|] == pieces;
  }

  lemma {:induction false} WholeOneMore(emitted: seq<Bytes>, line: Bytes)
    ensures Whole(emitted + [line])
       <==> Whole(emitted) && !(emitted != [] && Ends(emitted[|emitted| - 1], CR) && Starts(line, LF))
  {
    var more := emitted + [line];
    assert forall i | 0 <= i < |emitted| :: more[i] == emitted[i];
    assert more[|emitted|] == line;
  }

  /** What has been taken in ends in a carriage return exactly when the last line does and nothing follows it. */
  lemma {:induction false} EndOfCut(emitted: seq<Bytes>, rest: Bytes, before: Bytes)
    requires IsCut(emitted, rest, before)
    ensures Ends(before, CR) <==> rest == [] && emitted != [] && Ends(emitted[|emitted| - 1], CR)
  {
    if rest != [] {
      assert before[|before| - 1] == rest[|rest| - 1];
      assert rest[|rest| - 1] in rest;
    } else if emitted != [] {
      var last := emitted[|emitted| - 1];
      assert last in emitted && before == Joined(emitted[..|emitted| - 1]) + last;
    }
  }

  /** A chunk keeps the cut, and keeps it whole if and only if it does not tear a line break apart. */
  lemma {:induction false} FeedingCuts(emitted: seq<Bytes>, rest: Bytes, before: Bytes, chunk: Bytes)
    requires IsCut(emitted, rest, before)
    ensures
      var (lines, left) := Fed(emitted, rest, SplitLines(chunk));
      IsCut(lines, left, before + chunk) && (Whole(lines) <==> Whole(emitted) && !Parts(before, chunk))
    decreases |chunk|
  {
    if chunk == [] {
      assert before + chunk == before;
    } else {
      var line, after := chunk[..LineLength(chunk)], chunk[LineLength(chunk)..];
      FirstPiece(before, chunk);
      if IsLine(line) {
        EmittedOneMore(emitted, rest, before, line);
        FeedingCuts(emitted + [rest + line], [], before + line, after);
      } else {
        LastPiece(emitted, rest, before, line);
      }
    }
  }

  lemma {:induction false} FirstPiece(before: Bytes, chunk: Bytes)
    requires chunk != []
    ensures
      var line, after := chunk[..LineLength(chunk)], chunk[LineLength(chunk)..];
      && SplitLines(chunk) == [line] + SplitLines(after)
      && SplitLines(chunk)[0] == line && SplitLines(chunk)[1..] == SplitLines(after)
      && before + line + after == before + chunk
      && (Parts(before, chunk) <==> Parts(before, line))
      && !Parts(before + line, after)
      && line != []
      && (IsLine(line) || (Plain(line) && after == [] && chunk == line))
  {
    var line, after := chunk[..LineLength(chunk)], chunk[LineLength(chunk)..];
    FirstLine(chunk);
    assert chunk == line + after && line[0] == chunk[0];
    Regroup(before, line, after);
    assert (before + line)[|before + line| - 1] == line[|line| - 1];
  }

  lemma {:induction false} LastPiece(emitted: seq<Bytes>, rest: Bytes, before: Bytes, line: Bytes)
    requires IsCut(emitted, rest, before) && Plain(line) && line != []
    ensures IsCut(emitted, rest + line, before + line) && !Terminated(line) && !Starts(line, LF)
  {
    PlainPrefix(rest, line);
    assert Joined(emitted) + (rest + line) == before + line;
  }

  class PartialOutput {
    var buffer: Bytes
    var inProgress: Bytes
    /** The calls made to the callback, when there is one. */
    var emitted: seq<Bytes>
    const listening: bool
    ghost var chunks: seq<Bytes>

    ghost predicate Valid()
      reads this
    {
      && buffer == Joined(chunks)
      && if listening then IsCut(emitted, inProgress, buffer) && (Whole(emitted) <==> !Torn(chunks))
         else emitted == [] && inProgress == []
    }

    constructor (listening: bool)
      ensures Valid() && this.listening == listening && chunks == [] && buffer == []
    {
      this.listening := listening;
      buffer, inProgress, emitted, chunks := [], [], [], [];
    }

    method Write(output: Bytes)
      requires Valid()
      modifies this
      ensures Valid() && chunks == old(chunks) + [output] && buffer == old(buffer) + output
    {
      if listening {
        FeedingCuts(emitted, inProgress, buffer, output);
      }
      assert (chunks + [output])[..|chunks|] == chunks;
      buffer := buffer + output;
      chunks := chunks + [output];
      if !listening {
        return;
      }
      var lines := SplitLines(output);
      for i := 0 to |lines|
        invariant chunks == old(chunks) + [output] && buffer == old(buffer) + output
        invariant Fed(emitted, inProgress, lines[i..]) == Fed(old(emitted), old(inProgress), lines)
      {
        assert lines[i..][0] == lines[i] && lines[i..][1..] == lines[i + 1..];
        inProgress := inProgress + lines[i];
        if Terminated(lines[i]) {
          emitted := emitted + [inProgress];
          inProgress := [];
        }
      }
    }
  }

  /** Nothing is lost: the emitted lines and the unfinished one always join to everything written.  And the lines
      are those of the whole output if and only if no chunk boundary tore a line break apart. */
  lemma {:induction false} LinesAreThoseOfTheWholeExactlyWhen(c: PartialOutput)
    requires c.Valid() && c.listening
    ensures Joined(WithRest(c.emitted, c.inProgress)) == c.buffer == Joined(c.chunks)
    ensures WithRest(c.emitted, c.inProgress) == SplitLines(Joined(c.chunks)) <==> !Torn(c.chunks)
  {
    JoinedConcat(c.emitted, [c.inProgress]);
    assert Joined([c.inProgress]) == c.inProgress by {
      assert [c.inProgress][..0] == [];
    }
    if !Torn(c.chunks) {
      WholeCutIsSplit(c.emitted, c.inProgress, c.buffer);
    } else if WithRest(c.emitted, c.inProgress) == SplitLines(c.buffer) {
      SplitIsWholeCut(c.emitted, c.inProgress, c.buffer);
    }
  }

  /** Two containers that were fed the same bytes in untorn chunks have emitted the same lines. */
  lemma {:induction false} ChunkingIsInvisible(a: PartialOutput, b: PartialOutput)
    requires a.Valid() && a.listening && b.Valid() && b.listening
    requires Joined(a.chunks) == Joined(b.chunks) && !Torn(a.chunks) && !Torn(b.chunks)
    ensures a.emitted == b.emitted && a.inProgress == b.inProgress
  {
    LinesAreThoseOfTheWholeExactlyWhen(a);
    LinesAreThoseOfTheWholeExactlyWhen(b);
    SameWithRest(a.emitted, a.inProgress, b.emitted, b.inProgress);
  }

  lemma {:induction false} SameWithRest(a: seq<Bytes>, p: Bytes, b: seq<Bytes>, q: Bytes)
    requires WithRest(a, p) == WithRest(b, q)
    requires AllLines(a) && AllLines(b) && Plain(p) && Plain(q)
    ensures a == b && p == q
  {
    if p != [] {
      assert WithRest(a, p)[|a|] == p;
      PlainIsNoLine(p);
    }
    if q != [] {
      assert WithRest(b, q)[|b|] == q;
      PlainIsNoLine(q);
    }
    assert p != [] ==> (a + [p])[..|a|] == a;
    assert q != [] ==> (b + [q])[..|b|] == b;
  }

  lemma {:induction false} PlainIsNoLine(s: Bytes)
    requires Plain(s)
    ensures !IsLine(s)
  {
  }

  // ---------------------------------------------------------------- draining both pipes

  const READ_SIZE: nat := 0x100000

  /** One end of a pipe.  `pending` has been written and not yet read; `future` is what the process will still
      write before it is gone; `total` is all it ever writes. */
  class Pipe {
    var pending: Bytes
    var future: Bytes
    ghost const total: Bytes

    constructor (output: Bytes)
      ensures pending == [] && future == output && total == output
    {
      pending, future, total := [], output, output;
    }

    /** The process writes some more; once it has exited there is nothing left to write. */
    method Arrive(exited: bool)
      modifies this
      ensures pending + future == old(pending + future)
      ensures exited ==> future == []
      ensures old(future) == [] ==> future == []
    {
      var n: int := *;
      var k := if exited || n < 0 || n > |future| then |future| else n;
      pending, future := pending + future[..k], future[k..];
    }

    /** A read that does not block: nothing to read is told apart from the end of the output. */
    method Read() returns (partial: Option<Bytes>)
      modifies this
      ensures partial.None? ==> pending == old(pending) == []
      ensures partial.Some? ==>
        && old(pending) == partial.value + pending
        && |partial.value| <= READ_SIZE
        && (|partial.value| < READ_SIZE ==> pending == [])
      ensures future == old(future)
    {
      if pending == [] {
        var ended: bool := *;
        return if ended then Some([]) else None;
      }
      var n := if |pending| < READ_SIZE then |pending| else READ_SIZE;
      partial := Some(pending[..n]);
      pending := pending[n..];
    }
  }

  /** The process's output so far is in the container, the pipe, or still to be written. */
  ghost predicate Accounted(pipe: Pipe, container: PartialOutput)
    reads pipe, container
  {
    container.Valid() && container.buffer + (pipe.pending + pipe.future) == pipe.total
  }

  /** One read from one stream. */
  method ReadOnce(pipe: Pipe, container: PartialOutput, exited: bool) returns (more: bool)
    requires Accounted(pipe, container) && (exited ==> pipe.future == [])
    modifies pipe, container
    ensures Accounted(pipe, container)
    ensures |pipe.pending| + |pipe.future| + (if more then READ_SIZE else 0) <= old(|pipe.pending| + |pipe.future|)
    ensures old(pipe.future) == [] ==> pipe.future == []
    ensures !more && old(pipe.future) == [] ==> pipe.pending == []
  {
    pipe.Arrive(exited);
    ghost var unread := pipe.pending + pipe.future;
    var partial := pipe.Read();
    if partial.None? {
      return false;
    }
    assert unread == partial.value + (pipe.pending + pipe.future);
    assert container.buffer + unread == container.buffer + partial.value + (pipe.pending + pipe.future);
    container.Write(partial.value);
    more := |partial.value| == READ_SIZE;
  }

  class Gatherer {
    const stdout: Pipe
    const stderr: Pipe
    const stdoutLines: PartialOutput
    const stderrLines: PartialOutput

    constructor (stdout: Pipe, stderr: Pipe, listening: bool)
      requires stdout != stderr
      requires stdout.pending + stdout.future == stdout.total && stderr.pending + stderr.future == stderr.total
      ensures Valid() && fresh(stdoutLines) && fresh(stderrLines)
      ensures this.stdout == stdout && this.stderr == stderr
      ensures stdoutLines.listening == listening && stderrLines.listening == listening
    {
      this.stdout, this.stderr := stdout, stderr;
      stdoutLines := new PartialOutput(listening);
      stderrLines := new PartialOutput(listening);
      new;
    }

    ghost predicate Valid()
      reads this, stdout, stderr, stdoutLines, stderrLines
    {
      && stdout != stderr && stdoutLines != stderrLines
      && Accounted(stdout, stdoutLines) && Accounted(stderr, stderrLines)
    }

    ghost predicate Drained()
      reads stdout, stderr
    {
      stdout.pending == [] && stdout.future == [] && stderr.pending == [] && stderr.future == []
    }

    /** Reads both streams in turn until neither had more than one read could take.  When `calm` is false the
        shutdown event may be set at any time. */
    method GatherOutput(exited: bool, calm: bool)
      requires Valid() && (exited ==> stdout.future == [] && stderr.future == [])
      modifies stdout, stderr, stdoutLines, stderrLines
      ensures Valid()
      ensures exited && calm ==> Drained()
      ensures exited ==> stdout.future == [] && stderr.future == []
    {
      var moreStdout, moreStderr := true, true;
      var shutDown: bool := *;
      while !(shutDown && !calm) && (moreStdout || moreStderr)
        invariant Valid()
        invariant exited ==> stdout.future == [] && stderr.future == []
        invariant exited && !moreStdout && !moreStderr ==> Drained()
        decreases |stdout.pending| + |stdout.future| + |stderr.pending| + |stderr.future|,
                  if moreStdout || moreStderr then 1 else 0
      {
        moreStdout := ReadOnce(stdout, stdoutLines, exited);
        moreStderr := ReadOnce(stderr, stderrLines, exited);
        shutDown := *;
      }
    }
  }

  datatype Finished = Finished(stdout: Bytes, stderr: Bytes, stdoutLines: seq<Bytes>, stderrLines: seq<Bytes>)

  /** Polls the process and gathers its output until the process has exited or the wait is interrupted by a timeout
      or by shutdown.  `polls` is the number of polls that still find the process running, `interruption` the wait
      that is interrupted, if any, and `calm` says that shutdown does not come during the last gathering. */
  method RunToEnd(stdout: Pipe, stderr: Pipe, listening: bool, polls: nat, interruption: Option<nat>, calm: bool)
    returns (result: Finished)
    requires stdout != stderr
    requires stdout.pending + stdout.future == stdout.total && stderr.pending + stderr.future == stderr.total
    modifies stdout, stderr
    ensures result.stdout <= stdout.total && result.stderr <= stderr.total
    ensures (interruption.None? || interruption.value > polls) && calm ==>
      result.stdout == stdout.total && result.stderr == stderr.total
    ensures listening ==> Joined(result.stdoutLines) == result.stdout && Joined(result.stderrLines) == result.stderr
    ensures !listening ==> result.stdoutLines == [] && result.stderrLines == []
  {
    var gatherer := new Gatherer(stdout, stderr, listening);
    var i := 0;
    while interruption != Some(i)
      invariant gatherer.Valid() && i <= polls
      invariant fresh(gatherer.stdoutLines) && fresh(gatherer.stderrLines)
      decreases polls - i
    {
      if i == polls {
        stdout.Arrive(true);
        stderr.Arrive(true);
        gatherer.GatherOutput(true, calm);
        break;
      }
      gatherer.GatherOutput(false, false);
      i := i + 1;
    }
    assert gatherer.stdoutLines.buffer <= stdout.total && gatherer.stderrLines.buffer <= stderr.total;
    result := Finished(gatherer.stdoutLines.buffer, gatherer.stderrLines.buffer,
                       WithRest(gatherer.stdoutLines.emitted, gatherer.stdoutLines.inProgress),
                       WithRest(gatherer.stderrLines.emitted, gatherer.stderrLines.inProgress));
    if listening {
      LinesAreThoseOfTheWholeExactlyWhen(gatherer.stdoutLines);
      LinesAreThoseOfTheWholeExactlyWhen(gatherer.stderrLines);
    }
  }
}
