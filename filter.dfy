/** The deduplication loop of `run` (src/lib.rs:66-110), from the first
    `read_line` to the flush of the last run. The input stream is the
    sequence of lines `read_line` would deliver; the output stream is the
    sequence of records handed to `write`, after whatever the sink already
    held (an output file is opened for appending). */
module Filter {
  import opened Text
  import opened Field
  import opened Grouping

  /** What one `read_line` call yields: some bytes (none at the end of the
      input) or an I/O error. */
  datatype ReadResult = Read(chunk: string) | ReadError

  /** `read_line` on the input: the next line while there is one; after the
      last line, zero bytes, or an I/O error when `failsAtEnd` says the
      stream breaks there instead of ending. */
  function ReadLine(lines: seq<string>, pos: nat, failsAtEnd: bool): ReadResult {
    if pos < |lines| then Read(lines[pos])
    else if failsAtEnd then ReadError
    else Read("")
  }

  /** The loop state after the lines `seen` have been read: `lineCount` is 0
      exactly when nothing has been read; otherwise the runs of `seen` are
      the closed runs, whose records are already written after `prior`,
      followed by the open run (`lastLine`, `lineCount`). */
  ghost predicate Tracks(seen: seq<string>, closed: seq<Block>, lastLine: string, lineCount: nat,
                         prior: seq<string>, output: seq<string>, show: bool)
  {
    && (lineCount == 0 <==> seen == [])
    && (seen == [] ==> closed == [])
    && (seen != [] ==> Runs(seen) == closed + [Block(lastLine, lineCount)])
    && output == prior + Render(closed, show)
  }

  /** One pass of the loop body after a non-empty `line` was read
      (src/lib.rs:86-99): the first line opens a run; a line that is the
      same line as `lastLine` only bumps the count; any other line writes
      the open run's record and opens a run with itself. */
  method Accept(line: string, lastLine: string, lineCount: nat, output: seq<string>, show: bool,
                ghost seen: seq<string>, ghost closed: seq<Block>, ghost prior: seq<string>)
    returns (lastLine': string, lineCount': nat, output': seq<string>, ghost closed': seq<Block>)
    requires Tracks(seen, closed, lastLine, lineCount, prior, output, show)
    ensures Tracks(seen + [line], closed', lastLine', lineCount', prior, output', show)
  {
    if lineCount == 0 {
      TracksFirst(seen, closed, lastLine, lineCount, prior, output, show, line);
      lastLine', lineCount', output', closed' := line, 1, output, closed;
    } else if TrimEnd(line) != TrimEnd(lastLine) {
      TracksClose(seen, closed, lastLine, lineCount, prior, output, show, line);
      output' := output + [FormatField(lineCount, show) + lastLine];
      closed' := closed + [Block(lastLine, lineCount)];
      lastLine', lineCount' := line, 1;
    } else {
      TracksJoin(seen, closed, lastLine, lineCount, prior, output, show, line);
      lastLine', lineCount', output', closed' := lastLine, lineCount + 1, output, closed;
    }
  }

  /** The first line read opens a run of one and writes nothing. */
  lemma TracksFirst(seen: seq<string>, closed: seq<Block>, lastLine: string, lineCount: nat,
                    prior: seq<string>, output: seq<string>, show: bool, line: string)
    requires Tracks(seen, closed, lastLine, lineCount, prior, output, show)
    requires lineCount == 0
    ensures Tracks(seen + [line], closed, line, 1, prior, output, show)
  {
    assert seen + [line] == [line];
    RunsOfOne(line);
  }

  /** A line that is not the same line as the open run's closes that run,
      writing its record, and opens a run of one. */
  lemma TracksClose(seen: seq<string>, closed: seq<Block>, lastLine: string, lineCount: nat,
                    prior: seq<string>, output: seq<string>, show: bool, line: string)
    requires Tracks(seen, closed, lastLine, lineCount, prior, output, show)
    requires lineCount > 0 && !SameLine(line, lastLine)
    ensures Tracks(seen + [line], closed + [Block(lastLine, lineCount)], line, 1, prior,
                   output + [FormatField(lineCount, show) + lastLine], show)
  {
    var open := Block(lastLine, lineCount);
    RunsStep(seen, line, closed, open);
    RenderSnoc(closed, open, show);
  }

  /** A line that is the same line as the open run's joins it. */
  lemma TracksJoin(seen: seq<string>, closed: seq<Block>, lastLine: string, lineCount: nat,
                   prior: seq<string>, output: seq<string>, show: bool, line: string)
    requires Tracks(seen, closed, lastLine, lineCount, prior, output, show)
    requires lineCount > 0 && SameLine(line, lastLine)
    ensures Tracks(seen + [line], closed, lastLine, lineCount + 1, prior, output, show)
  {
    RunsStep(seen, line, closed, Block(lastLine, lineCount));
  }

  /** The loop of `run` and the final flush. `lines` is what the input
      delivers line by line (each non-empty: `read_line` reports zero bytes
      only at the end); `prior` is what the sink held before. `ok` is false
      when the input fails with an I/O error after `lines`: `?` returns at
      once and the open run is never written. */
  method Run(lines: seq<string>, failsAtEnd: bool, show: bool, prior: seq<string>)
    returns (output: seq<string>, ok: bool)
    requires forall k :: 0 <= k < |lines| ==> |lines[k]| > 0
    ensures ok == !failsAtEnd
    ensures ok ==> output == prior + Uniq(lines, show)
    ensures !ok ==> output == prior + Uniq(lines, show)[..Closed(lines)]
  {
    output := prior;
    ok := true;
    var line := "";
    var lastLine := line;
    var lineCount: nat := 0;
    var pos := 0;
    ghost var closed: seq<Block> := [];
    while true
      invariant pos <= |lines|
      invariant line == ""
      invariant Tracks(lines[..pos], closed, lastLine, lineCount, prior, output, show)
      decreases |lines| - pos
    {
      var r := ReadLine(lines, pos, failsAtEnd);
      if r.ReadError? {
        ok := false;
        assert lines[..pos] == lines;
        FlushSkipped(lines, closed, lastLine, lineCount, prior, output, show);
        return;
      }
      line := line + r.chunk;
      var bytes := |r.chunk|;
      if bytes == 0 {
        break;
      }
      assert pos < |lines| && line == lines[pos];
      assert lines[..pos + 1] == lines[..pos] + [line];
      lastLine, lineCount, output, closed :=
        Accept(line, lastLine, lineCount, output, show, lines[..pos], closed, prior);
      pos := pos + 1;
      line := "";
    }
    assert lines[..pos] == lines;
    FlushAll(lines, closed, lastLine, lineCount, prior, output, show);
    if lineCount > 0 {
      output := output + [FormatField(lineCount, show) + lastLine];
    }
  }

  /** At the end of the input, writing the open run's record, if any
      (src/lib.rs:104-106), completes the output: every run's record. */
  lemma FlushAll(lines: seq<string>, closed: seq<Block>, lastLine: string, lineCount: nat,
                 prior: seq<string>, output: seq<string>, show: bool)
    requires Tracks(lines, closed, lastLine, lineCount, prior, output, show)
    ensures lineCount > 0 ==> output + [FormatField(lineCount, show) + lastLine] == prior + Uniq(lines, show)
    ensures lineCount == 0 ==> output == prior + Uniq(lines, show)
  {
    if lineCount > 0 {
      RenderSnoc(closed, Block(lastLine, lineCount), show);
    }
  }

  /** How many runs are closed, and so written, once every line of `lines`
      has been read: all but the last. */
  function Closed(lines: seq<string>): nat {
    if |Runs(lines)| == 0 then 0 else |Runs(lines)| - 1
  }

  /** On a read error after the last line, what has been written is the
      records of every run but the open one. */
  lemma FlushSkipped(lines: seq<string>, closed: seq<Block>, lastLine: string, lineCount: nat,
                     prior: seq<string>, output: seq<string>, show: bool)
    requires Tracks(lines, closed, lastLine, lineCount, prior, output, show)
    ensures output == prior + Uniq(lines, show)[..Closed(lines)]
  {
    if lines != [] {
      RenderSnoc(closed, Block(lastLine, lineCount), show);
    }
  }
}
