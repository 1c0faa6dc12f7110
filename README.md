# uniqr in Dafny

A model of the core of `uniqr`, a Rust clone of `uniq`. The program reads its
input line by line, collapses each run of adjacent lines that are the same
line into one output record, and appends the records to standard output or
to an output file. Two lines are the same line when they are equal after
`trim_end`, so trailing spaces, tabs and line endings (`\n` or `\r\n`) are
ignored. A run keeps the raw text of its first line, line ending included.
With `-c`, each record starts with the run's count, right-aligned in at
least four columns (a count of 10000 or more takes as many columns as it has
digits) and followed by one space.

The project has five modules:

- `Text` (text.dfy) defines Rust's `char::is_whitespace`, which is the
  Unicode White_Space property, and `trim_end` with its characterization.
  It also defines the "same line" comparison.
- `Field` (field.dfy) defines `format_field`. It spells out decimal digits
  and right-alignment, and provides `ParseRecord`, which reads a record
  back as the inverse of `format_field`.
- `Grouping` (runs.dfy) specifies what the filter computes without its
  loop:
  - `Runs` builds the runs line by line, in input order.
  - `MaximalRuns` describes the same runs independently: a cut of the input
    into blocks where no two neighbouring blocks can be merged.
  - `Uniq` is the sequence of records the filter writes.
- `Filter` (filter.dfy) models the loop of `run` and its final flush as a
  method, proved against `Uniq`.
- `Scenarios` (scenarios.dfy) works through a concrete sample.

The method `Filter.Run` keeps the program's own variables: `line`,
`last_line`, `line_count`, the sink, and the `bytes` test that ends the
loop. Two things it receives as parameters:

- Input: a sequence of lines, as `read_line` delivers them one call at a
  time. `failsAtEnd` says whether the stream ends normally after them or
  `read_line` returns an I/O error.
- Sink: a sequence of written strings that starts with `prior`, because an
  output file is opened in append mode.

## Model

| member | source | states |
|---|---|---|
| Text.IsWs | src/lib.rs:90 | the characters `trim_end` strips: Rust's `char::is_whitespace`, the Unicode White_Space set (tab to carriage return, space, U+0085, U+00A0, U+1680, U+2000-U+200A, U+2028, U+2029, U+202F, U+205F, U+3000) |
| Text.TrimEnd | src/lib.rs:90 | `trim_end`: drops whitespace from the end one character at a time; its result is characterized by `Text.TrimEndShape` and `Text.TrimEndUnique` |
| Text.SameLine | src/lib.rs:90 | the comparison `line.trim_end() != last_line.trim_end()`, negated: two lines are the same line when their trimmed forms are equal |
| Field.FormatField | src/lib.rs:58-64 | `format_field`: the count right-aligned in at least four columns plus one space when shown, the empty string otherwise; its content is fixed by `Field.FieldShape`, `Field.FieldWidth`, `Field.FieldHiddenIsEmpty` and `Field.RecordRoundTrip` |
| Text.TrimEndShape | src/lib.rs:90 | `trim_end` returns a prefix of the line; everything it cuts off is whitespace; what it keeps does not end in whitespace |
| Text.TrimEndUnique | src/lib.rs:90 | any split into a prefix not ending in whitespace and an all-whitespace rest is exactly `trim_end`'s split, so the three properties define `trim_end` |
| Text.TrimEndIgnoresTrailingWs | src/lib.rs:90 | appending any whitespace (a space, `\n`, `\r\n`) leaves the trimmed form unchanged, so such lines compare as the same line |
| Text.TrimEndIdempotent | src/lib.rs:90 | trimming an already trimmed line changes nothing |
| Text.TrimEndKeepsContent | src/lib.rs:90 | a line not ending in whitespace is its own trimmed form, so lines that differ before their trailing whitespace are different lines |
| Field.Digits | src/lib.rs:60 | the decimal rendering of a count is non-empty, all digits, and has no leading zero unless the count is 0 |
| Field.ValueOfDigits | src/lib.rs:60 | reading the decimal digits back gives the count |
| Field.DigitsFit | src/lib.rs:60 | a count has at most k digits exactly when it is below 10^k |
| Field.PadLeft | src/lib.rs:60 | `{:>w}` pads on the left with spaces up to width w and never cuts a longer string |
| Field.FieldShape | src/lib.rs:59-60 | with counts shown, the field has length max(4, digits) + 1; it is spaces, then the count's digits, then one space |
| Field.FieldHiddenIsEmpty | src/lib.rs:61-62 | with counts hidden, the field is empty |
| Field.FieldWidth | src/lib.rs:59-60 | with counts shown, the field is exactly 5 characters iff the count is below 10000; a larger count widens it to all its digits plus the space |
| Field.FieldLaidOut | src/lib.rs:59-60 | with counts shown, the field is the padding spaces, then the digits, then one space |
| Field.LeadingSpacesOf | src/lib.rs:60 | the parser counts exactly the padding spaces in front of a digit |
| Field.LeadingDigitsOf | src/lib.rs:60 | the parser counts exactly the digits in front of the separating space |
| Field.ParseLaidOut | src/lib.rs:60 | padding, digits, one space, then text parse back as the digits' value and the text |
| Field.ParseAfterCounts | src/lib.rs:60 | once the padding and digits are counted, `ParseRecord` yields the value and the rest after the space |
| Field.RecordRoundTrip | src/lib.rs:58-64 | `format_field(count, true)` followed by any text parses back to that count and that text: the count is written in full and the text is untouched |
| Grouping.Extend | src/lib.rs:86-98 | one more line: it opens the first run, joins the open run (count + 1, first line's text kept) when it is the same line, and otherwise opens a run of one after the open run |
| Grouping.Runs | src/lib.rs:80-101 | the runs the loop forms, built line by line in input order; characterized independently by `Grouping.RunsCharacterized` |
| Grouping.Record | src/lib.rs:93 | the record written for a run, `format!("{}{}", format_field(count, show), last_line)`, as also at line 106 |
| Grouping.Uniq | src/lib.rs:80-107 | everything the program writes for a complete input: one record per run, in order; `Filter.Run` is proved to write exactly this |
| Grouping.ExtendJoins | src/lib.rs:96-98 | a line that is the same line as the open run increments its count and keeps its text |
| Grouping.ExtendOpens | src/lib.rs:90-95 | a different line closes the open run and opens a run of one with itself |
| Grouping.PartitionJoin | src/lib.rs:96-98 | joining a line to the last run keeps the runs a cut of the input into same-line blocks |
| Grouping.PartitionOpen | src/lib.rs:90-95 | opening a run with a new line keeps the runs a cut of the input into same-line blocks |
| Grouping.RunsAreMaximal | src/lib.rs:86-107 | the runs the filter forms cut the input, in order, into blocks of same lines, each starting with its text verbatim, and no two neighbouring blocks are the same line |
| Grouping.BlockEnd | src/lib.rs:90 | in a maximal cut, the line right after the first block is not the same line as that block |
| Grouping.MaximalRunsUnique | src/lib.rs:86-107 | there is only one maximal cut of a given input |
| Grouping.RunsCharacterized | src/lib.rs:86-107 | both directions: a sequence of runs is what the filter forms iff it is a maximal cut of the input |
| Grouping.PartitionTotal | src/lib.rs:86-99 | the counts of a cut add up to the number of lines |
| Grouping.CountConservation | src/lib.rs:86-107 | every line is counted exactly once: the counts sum to the number of lines; each count is at least 1; there are no more runs than lines; there are no runs iff there are no lines |
| Grouping.RunBoundaries | src/lib.rs:86-99 | run k starts after the lines of the runs before it; its text is that first line verbatim; its count lines all fit in the input and are the same line as it |
| Grouping.RunsInOrder | src/lib.rs:86-99 | the same placement for the runs the filter forms |
| Grouping.NoAdjacentDuplicates | src/lib.rs:90-95 | no two consecutive runs are the same line after `trim_end` |
| Grouping.Render | src/lib.rs:93 | one record per run |
| Grouping.RenderRecords | src/lib.rs:93 | record k is run k's count field followed by run k's text |
| Grouping.RenderSnoc | src/lib.rs:93 | closing one more run appends exactly its record to what was written |
| Grouping.RunsStep | src/lib.rs:86-99 | given the closed runs and the open run, a new line joins the open run when it is the same line, and otherwise closes it and opens its own |
| Grouping.RunsOfOne | src/lib.rs:86-88 | the first line opens a run of one with its own text |
| Grouping.EmptyInput | src/lib.rs:80-107 | empty input produces no records |
| Grouping.PartitionSingles | src/lib.rs:86-99 | runs of one line each cut any input |
| Grouping.SeparatedLinesAreSingles | src/lib.rs:86-99 | when no two neighbouring lines are the same line, each line forms a run of its own |
| Grouping.HiddenRecords | src/lib.rs:61-62 | with counts hidden, each record is its run's text verbatim |
| Grouping.UniqIdempotent | src/lib.rs:86-107 | with counts hidden, running the filter on its own output changes nothing |
| Filter.ReadLine | src/lib.rs:81-84 | `read_line`: the next line while one is left; after the last line, zero bytes at the end of input, or an I/O error when the stream breaks there |
| Filter.Accept | src/lib.rs:86-99 | one pass of the loop body keeps the loop state in step with the runs of the lines read so far, and writes exactly the records of the closed runs |
| Filter.TracksFirst | src/lib.rs:86-88 | the first line opens a run of one and writes nothing |
| Filter.TracksClose | src/lib.rs:90-95 | a different line writes the open run's record and opens a run of one |
| Filter.TracksJoin | src/lib.rs:96-98 | a line that is the same line only increments the count |
| Filter.FlushAll | src/lib.rs:103-107 | at the end of the input, writing the open run's record, if there is one, completes the output with every run's record |
| Filter.FlushSkipped | src/lib.rs:81 | on a read error, what was written is every run's record except the open one |
| Filter.Run | src/lib.rs:66-110 | `ok` iff the input ends without an error. On success the sink holds the prior contents and then one record per maximal run, in order. On a read error `?` returns at once, so the open run's record is never written |
| Scenarios.RunsOfSample | src/lib.rs:90 | "a", "a " and "b" (each with `\n`) form two runs, ("a", 2) and ("b", 1) |
| Scenarios.FieldOfSmall | src/lib.rs:60 | a one-digit count is padded with three spaces |
| Scenarios.TrailingSpaceJoins | src/lib.rs:58-64 | with `-c`, that input produces the records "   2 a" and "   1 b" |

## Left out

- `get_args` and the command-line parsing through `clap` (src/lib.rs:1-49) are not part of this model. `Filter.Run` takes `show` (the `-c` flag) directly.
- `open` (src/lib.rs:51-56) is left out, together with the choice between standard input and a file and the error message for a missing file. The input is given as its lines.
- The choice of sink and the errors of creating or opening the output file (src/lib.rs:74-78) are left out. The sink is given as its earlier contents `prior`.
- `read_line`'s splitting of bytes into lines and its UTF-8 decoding are left out. `Filter.Run` receives the lines already split; each is non-empty and keeps its line ending.
- `Filter.Run` models a read error only after the given lines. A read error in the middle of the input is the same call with the lines before the error.
- Results of `write`, which the source discards, are left out: errors and partial writes are not modelled. Every record is written in full.
- `Filter.Run` does not model the bounded `usize` `line_count`: counts are unbounded. The counter overflows after 2^64 lines of one run on a 64-bit target, and after 2^32 lines on a 32-bit target. A debug build then panics. A release build wraps `line_count` to 0, so the next line takes the first-line branch (src/lib.rs:86-88) and the overflowed run's record is never written, and at the end of input the flush (src/lib.rs:104) is skipped.
- `Grouping.UniqIdempotent` is stated on line sequences, not on byte streams. That splitting the written bytes again yields the same records is not modelled.
