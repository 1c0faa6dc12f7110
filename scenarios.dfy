/** Worked samples of the filter's output, proved from the general lemmas. */
module Scenarios {
  import opened Text
  import opened Field
  import opened Grouping

  /** A trailing space before the line ending does not start a new run,
      and the run keeps its first line's text. */
  lemma RunsOfSample()
    ensures Runs(["a\n", "a \n", "b\n"]) == [Block("a\n", 2), Block("b\n", 1)]
  {
    TrimEndKeepsContent("a");
    TrimEndKeepsContent("b");
    assert AllWs("\n") && AllWs(" \n");
    TrimEndIgnoresTrailingWs("a", "\n");
    TrimEndIgnoresTrailingWs("a", " \n");
    TrimEndIgnoresTrailingWs("b", "\n");
    assert "a" + "\n" == "a\n" && "a" + " \n" == "a \n" && "b" + "\n" == "b\n";
    RunsOfOne("a\n");
    assert ["a\n"] + ["a \n"] == ["a\n", "a \n"];
    RunsStep(["a\n"], "a \n", [], Block("a\n", 1));
    assert ["a\n", "a \n"] + ["b\n"] == ["a\n", "a \n", "b\n"];
    RunsStep(["a\n", "a \n"], "b\n", [], Block("a\n", 2));
  }

  /** A one-digit count is padded with three spaces. */
  lemma FieldOfSmall(n: nat)
    requires 0 < n < 10
    ensures FormatField(n, true) == "   " + [DigitChar(n)] + " "
  {
    assert Spaces(3) == "   ";
  }

  /** `uniqr -c` on "a", "a ", "b": two records, "   2 a" and "   1 b". */
  lemma TrailingSpaceJoins()
    ensures Uniq(["a\n", "a \n", "b\n"], true) == ["   2 a\n", "   1 b\n"]
  {
    RunsOfSample();
    FieldOfSmall(2);
    FieldOfSmall(1);
    var runs := [Block("a\n", 2), Block("b\n", 1)];
    RenderRecords(runs, true);
    assert DigitChar(2) == '2' && DigitChar(1) == '1';
    assert Record(runs[0], true) == "   2 a\n";
    assert Record(runs[1], true) == "   1 b\n";
    var out := Uniq(["a\n", "a \n", "b\n"], true);
    assert out == Render(runs, true);
    assert out[0] == "   2 a\n" && out[1] == "   1 b\n" && |out| == 2;
  }
}
