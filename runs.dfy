/** What the filter computes, stated without its loop: the input lines are
    grouped into maximal runs of adjacent lines that are the same line once
    trailing whitespace is dropped, and one record is written per run. */
module Grouping {
  import opened Text
  import opened Field

  /** A run of adjacent same lines: the raw text of its first line (line
      ending included) and how many lines it stands for. */
  datatype Block = Block(text: string, count: nat)

  /** One more line arrives: it joins the open run when it is the same line
      as that run's first line, and opens a new run otherwise. The open run
      keeps its first line's text either way. */
  function Extend(runs: seq<Block>, line: string): seq<Block> {
    if runs != [] && SameLine(line, runs[|runs| - 1].text) then
      runs[..|runs| - 1] + [Block(runs[|runs| - 1].text, runs[|runs| - 1].count + 1)]
    else
      runs + [Block(line, 1)]
  }

  /** A line that is the same line as the open run's text only bumps its count. */
  lemma ExtendJoins(closed: seq<Block>, open: Block, line: string)
    requires SameLine(line, open.text)
    ensures Extend(closed + [open], line) == closed + [Block(open.text, open.count + 1)]
  {
    assert (closed + [open])[..|closed|] == closed;
  }

  /** A different line closes the open run and opens a new one with itself. */
  lemma ExtendOpens(closed: seq<Block>, open: Block, line: string)
    requires !SameLine(line, open.text)
    ensures Extend(closed + [open], line) == closed + [open, Block(line, 1)]
  {
  }

  /** The runs of `lines`, built line by line in input order. */
  function Runs(lines: seq<string>): seq<Block>
    decreases |lines|
  {
    if lines == [] then [] else Extend(Runs(lines[..|lines| - 1]), lines[|lines| - 1])
  }

  /** Sum of the counts of `runs`. */
  function Total(runs: seq<Block>): nat
    decreases |runs|
  {
    if runs == [] then 0 else runs[0].count + Total(runs[1..])
  }

  /** `runs` cuts `lines`, front to back, into consecutive non-empty blocks;
      each block starts with its run's text verbatim and every line in it is
      the same line as that text. */
  ghost predicate Partition(lines: seq<string>, runs: seq<Block>)
    decreases |runs|
  {
    if runs == [] then lines == []
    else
      1 <= runs[0].count <= |lines|
      && lines[0] == runs[0].text
      && (forall j :: 0 <= j < runs[0].count ==> SameLine(lines[j], runs[0].text))
      && Partition(lines[runs[0].count..], runs[1..])
  }

  /** Neighbouring runs are different lines. */
  ghost predicate Separated(runs: seq<Block>) {
    forall k :: 0 < k < |runs| ==> !SameLine(runs[k - 1].text, runs[k].text)
  }

  /** The independent description of the result: a partition into blocks
      that cannot be merged with their neighbours. */
  ghost predicate MaximalRuns(lines: seq<string>, runs: seq<Block>) {
    Partition(lines, runs) && Separated(runs)
  }

  /** A line that is the same line as the last run's text extends the last
      block by one. */
  lemma {:induction false} PartitionJoin(lines: seq<string>, closed: seq<Block>, open: Block, line: string)
    requires Partition(lines, closed + [open])
    requires SameLine(line, open.text)
    ensures Partition(lines + [line], closed + [Block(open.text, open.count + 1)])
    decreases |closed|
  {
    var bumped := Block(open.text, open.count + 1);
    var lines' := lines + [line];
    if closed == [] {
      assert [open][1..] == [] && [bumped][1..] == [];
      assert lines'[bumped.count..] == [];
      forall j | 0 <= j < bumped.count ensures SameLine(lines'[j], open.text) {
        if j < open.count { assert lines'[j] == lines[j]; }
      }
    } else {
      var c := closed[0].count;
      assert (closed + [open])[1..] == closed[1..] + [open];
      PartitionJoin(lines[c..], closed[1..], open, line);
      assert lines'[c..] == lines[c..] + [line];
      assert (closed + [bumped])[1..] == closed[1..] + [bumped];
    }
  }

  lemma {:induction false} PartitionOpen(lines: seq<string>, runs: seq<Block>, line: string)
    requires Partition(lines, runs)
    ensures Partition(lines + [line], runs + [Block(line, 1)])
    decreases |runs|
  {
    if runs == [] {
      assert (lines + [line])[1..] == [];
    } else {
      var c := runs[0].count;
      PartitionOpen(lines[c..], runs[1..], line);
      assert (lines + [line])[c..] == lines[c..] + [line];
      assert (runs + [Block(line, 1)])[1..] == runs[1..] + [Block(line, 1)];
    }
  }

  /** `Runs` meets the independent description. */
  lemma {:induction false} RunsAreMaximal(lines: seq<string>)
    ensures MaximalRuns(lines, Runs(lines))
    decreases |lines|
  {
    if lines != [] {
      var init := lines[..|lines| - 1];
      var line := lines[|lines| - 1];
      RunsAreMaximal(init);
      var runs := Runs(init);
      assert lines == init + [line];
      if runs != [] && SameLine(line, runs[|runs| - 1].text) {
        var closed, open := runs[..|runs| - 1], runs[|runs| - 1];
        assert runs == closed + [open];
        ExtendJoins(closed, open, line);
        PartitionJoin(init, closed, open, line);
      } else {
        PartitionOpen(init, runs, line);
      }
    }
  }

  /** The line right after the first block, if any, is not the same line
      as the first run: a maximal run cannot be extended. */
  lemma BlockEnd(lines: seq<string>, runs: seq<Block>)
    requires MaximalRuns(lines, runs) && runs != []
    ensures runs[0].count < |lines| ==> !SameLine(lines[runs[0].count], runs[0].text)
  {
    var c := runs[0].count;
    if c < |lines| {
      assert lines[c..] != [] && lines[c..][0] == lines[c];
      assert Partition(lines[c..], runs[1..]);
      assert runs[1].text == lines[c];
    }
  }

  /** There is only one way to cut a sequence of lines into maximal runs. */
  lemma {:induction false} MaximalRunsUnique(lines: seq<string>, a: seq<Block>, b: seq<Block>)
    requires MaximalRuns(lines, a) && MaximalRuns(lines, b)
    ensures a == b
    decreases |lines|
  {
    if lines != [] {
      var ca, cb := a[0].count, b[0].count;
      BlockEnd(lines, a);
      BlockEnd(lines, b);
      assert forall j :: 0 <= j < cb ==> SameLine(lines[j], b[0].text);
      assert ca == cb;
      assert Separated(a[1..]) by {
        forall k | 0 < k < |a[1..]| ensures !SameLine(a[1..][k - 1].text, a[1..][k].text) {
          assert a[1..][k - 1] == a[k] && a[1..][k] == a[k + 1];
        }
      }
      assert Separated(b[1..]) by {
        forall k | 0 < k < |b[1..]| ensures !SameLine(b[1..][k - 1].text, b[1..][k].text) {
          assert b[1..][k - 1] == b[k] && b[1..][k] == b[k + 1];
        }
      }
      MaximalRunsUnique(lines[ca..], a[1..], b[1..]);
      assert a == [a[0]] + a[1..] && b == [b[0]] + b[1..];
    }
  }

  /** Both directions: a sequence of runs is the result of `Runs` exactly
      when it cuts the input into maximal runs. */
  lemma RunsCharacterized(lines: seq<string>, runs: seq<Block>)
    ensures MaximalRuns(lines, runs) <==> runs == Runs(lines)
  {
    RunsAreMaximal(lines);
    if MaximalRuns(lines, runs) {
      MaximalRunsUnique(lines, runs, Runs(lines));
    }
  }

  lemma {:induction false} PartitionTotal(lines: seq<string>, runs: seq<Block>)
    requires Partition(lines, runs)
    ensures Total(runs) == |lines|
    decreases |runs|
  {
    if runs != [] {
      PartitionTotal(lines[runs[0].count..], runs[1..]);
    }
  }

  /** Every line read is counted exactly once: the counts of the runs add
      up to the number of lines, and each count is at least one. */
  lemma CountConservation(lines: seq<string>)
    ensures Total(Runs(lines)) == |lines|
    ensures forall k :: 0 <= k < |Runs(lines)| ==> Runs(lines)[k].count >= 1
    ensures |Runs(lines)| <= |lines|
    ensures Runs(lines) == [] <==> lines == []
  {
    RunsAreMaximal(lines);
    PartitionTotal(lines, Runs(lines));
  }

  /** Where run `k` sits in the input: it starts after the lines of the runs
      before it, its text is that first line verbatim, and all `count` lines
      of the block are the same line as it. */
  lemma {:induction false} RunBoundaries(lines: seq<string>, runs: seq<Block>, k: nat)
    requires Partition(lines, runs) && k < |runs|
    ensures runs[k].count >= 1
    ensures Total(runs[..k]) + runs[k].count <= |lines|
    ensures lines[Total(runs[..k])] == runs[k].text
    ensures forall j :: Total(runs[..k]) <= j < Total(runs[..k]) + runs[k].count ==>
              SameLine(lines[j], runs[k].text)
    decreases k
  {
    if k > 0 {
      var c := runs[0].count;
      RunBoundaries(lines[c..], runs[1..], k - 1);
      assert runs[..k][1..] == runs[1..][..k - 1];
      assert Total(runs[..k]) == c + Total(runs[1..][..k - 1]);
    } else {
      assert runs[..0] == [];
    }
  }

  /** The runs of the input, in order, as `RunBoundaries` places them. */
  lemma RunsInOrder(lines: seq<string>, k: nat)
    requires k < |Runs(lines)|
    ensures Runs(lines)[k].count >= 1
    ensures Total(Runs(lines)[..k]) + Runs(lines)[k].count <= |lines|
    ensures lines[Total(Runs(lines)[..k])] == Runs(lines)[k].text
    ensures forall j :: Total(Runs(lines)[..k]) <= j < Total(Runs(lines)[..k]) + Runs(lines)[k].count ==>
              SameLine(lines[j], Runs(lines)[k].text)
  {
    RunsAreMaximal(lines);
    RunBoundaries(lines, Runs(lines), k);
  }

  /** No two consecutive runs are the same line. */
  lemma NoAdjacentDuplicates(lines: seq<string>)
    ensures forall k :: 0 < k < |Runs(lines)| ==>
              TrimEnd(Runs(lines)[k - 1].text) != TrimEnd(Runs(lines)[k].text)
  {
    RunsAreMaximal(lines);
  }

  /** The record written for a run: its count field, then its text. */
  function Record(run: Block, show: bool): string {
    FormatField(run.count, show) + run.text
  }

  /** The records for `runs`, in order. */
  function Render(runs: seq<Block>, show: bool): (out: seq<string>)
    ensures |out| == |runs|
    decreases |runs|
  {
    if runs == [] then [] else Render(runs[..|runs| - 1], show) + [Record(runs[|runs| - 1], show)]
  }

  /** One record per run, each that run's record, in order. */
  lemma {:induction false} RenderRecords(runs: seq<Block>, show: bool)
    ensures forall k :: 0 <= k < |runs| ==> Render(runs, show)[k] == Record(runs[k], show)
    decreases |runs|
  {
    if runs != [] {
      var init := runs[..|runs| - 1];
      RenderRecords(init, show);
      forall k | 0 <= k < |runs| ensures Render(runs, show)[k] == Record(runs[k], show) {
        if k < |init| {
          assert runs[k] == init[k];
        }
      }
    }
  }

  /** Closing one more run writes one more record. */
  lemma RenderSnoc(runs: seq<Block>, run: Block, show: bool)
    ensures Render(runs + [run], show) == Render(runs, show) + [Record(run, show)]
  {
    assert (runs + [run])[..|runs|] == runs;
  }

  /** How the runs change when `line` arrives after `seen`, given the
      closed runs and the open run of `seen`. */
  lemma RunsStep(seen: seq<string>, line: string, closed: seq<Block>, open: Block)
    requires Runs(seen) == closed + [open]
    ensures SameLine(line, open.text) ==>
              Runs(seen + [line]) == closed + [Block(open.text, open.count + 1)]
    ensures !SameLine(line, open.text) ==>
              Runs(seen + [line]) == closed + [open, Block(line, 1)]
  {
    assert (seen + [line])[..|seen|] == seen;
    if SameLine(line, open.text) {
      ExtendJoins(closed, open, line);
    } else {
      ExtendOpens(closed, open, line);
    }
  }

  /** A single line is one run of one. */
  lemma RunsOfOne(line: string)
    ensures Runs([line]) == [Block(line, 1)]
  {
    assert [line][..0] == [];
  }

  /** Everything the filter writes for `lines`, one record per run. */
  function Uniq(lines: seq<string>, show: bool): seq<string> {
    Render(Runs(lines), show)
  }

  /** No input lines, no records (src/lib.rs:81-83 then 104). */
  lemma EmptyInput(show: bool)
    ensures Uniq([], show) == []
  {
  }

  /** Every line a run of its own. */
  function Singles(texts: seq<string>): seq<Block> {
    seq(|texts|, k requires 0 <= k < |texts| => Block(texts[k], 1))
  }

  lemma {:induction false} PartitionSingles(texts: seq<string>)
    ensures Partition(texts, Singles(texts))
    decreases |texts|
  {
    if texts != [] {
      PartitionSingles(texts[1..]);
      assert Singles(texts)[1..] == Singles(texts[1..]);
    }
  }

  /** Lines no two neighbours of which are the same line are already
      maximal runs of one line each. */
  lemma SeparatedLinesAreSingles(texts: seq<string>)
    requires forall k :: 0 < k < |texts| ==> !SameLine(texts[k - 1], texts[k])
    ensures Runs(texts) == Singles(texts)
  {
    PartitionSingles(texts);
    RunsCharacterized(texts, Singles(texts));
  }

  /** With counts off, a record is its run's text verbatim. */
  lemma HiddenRecords(runs: seq<Block>)
    ensures forall k :: 0 <= k < |runs| ==> Render(runs, false)[k] == runs[k].text
  {
    RenderRecords(runs, false);
    forall k | 0 <= k < |runs| ensures Render(runs, false)[k] == runs[k].text {
      assert FormatField(runs[k].count, false) == "";
    }
  }

  /** With counts off, feeding the output back in changes nothing: the
      records are lines no two neighbours of which are the same line, so
      each forms a run of its own. */
  lemma UniqIdempotent(lines: seq<string>)
    ensures Uniq(Uniq(lines, false), false) == Uniq(lines, false)
  {
    var runs := Runs(lines);
    var texts := Uniq(lines, false);
    HiddenRecords(runs);
    NoAdjacentDuplicates(lines);
    SeparatedLinesAreSingles(texts);
    HiddenRecords(Singles(texts));
  }
}
