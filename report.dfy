/**
 The final report: the performance tier chosen by fixed score thresholds,
 and the decision log rendered as one newline-separated transcript.
 */
module Report {

  const ExcellentThreshold: int := 70
  const GoodThreshold: int := 40

  /** The performance label of a final score. */
  function Performance(score: int): (tier: string)
    ensures tier == "Excellent Analyst" <==> score >= ExcellentThreshold
    ensures tier == "Good Analyst" <==> GoodThreshold <= score < ExcellentThreshold
    ensures tier == "Needs Improvement" <==> score < GoodThreshold
  {
    if score >= ExcellentThreshold then "Excellent Analyst"
    else if score >= GoodThreshold then "Good Analyst"
    else "Needs Improvement"
  }

  /** The order of the tiers, lowest first. */
  function Rank(tier: string): nat {
    if tier == "Excellent Analyst" then 2
    else if tier == "Good Analyst" then 1
    else 0
  }

  /** A higher score never earns a lower tier. */
  lemma PerformanceMonotone(low: int, high: int)
    requires low <= high
    ensures Rank(Performance(low)) <= Rank(Performance(high))
  {
  }

  /** Python's `"\n".join(lines)`. */
  function Join(lines: seq<string>): string {
    if |lines| == 0 then ""
    else if |lines| == 1 then lines[0]
    else lines[0] + "\n" + Join(lines[1..])
  }

  /** Appending a log line extends the transcript by a line break and that line. */
  lemma {:induction false} JoinAppend(lines: seq<string>, line: string)
    requires |lines| > 0
    ensures Join(lines + [line]) == Join(lines) + "\n" + line
    decreases |lines|
  {
    if |lines| == 1 {
      assert lines + [line] == [lines[0], line];
      assert [lines[0], line][1..] == [line];
    } else {
      assert (lines + [line])[1..] == lines[1..] + [line];
      JoinAppend(lines[1..], line);
    }
  }

  /** Python's `text.split("\n")`: the pieces between line breaks, at least one. */
  function Split(text: string): (lines: seq<string>)
    ensures |lines| > 0
  {
    if text == [] then [""]
    else
      var rest := Split(text[1..]);
      if text[0] == '\n' then [""] + rest
      else [[text[0]] + rest[0]] + rest[1..]
  }

  predicate NoNewlines(lines: seq<string>) {
    forall i :: 0 <= i < |lines| ==> '\n' !in lines[i]
  }

  /** Text without a line break glues onto the first piece of what follows it. */
  lemma {:induction false} SplitPrefix(line: string, text: string)
    requires '\n' !in line
    ensures Split(line + text) == [line + Split(text)[0]] + Split(text)[1..]
    decreases |line|
  {
    if line != [] {
      assert (line + text)[0] == line[0];
      assert (line + text)[1..] == line[1..] + text;
      var pieces := Split(text);
      var rest := Split(line[1..] + text);
      SplitPrefix(line[1..], text);
      assert rest[0] == line[1..] + pieces[0] && rest[1..] == pieces[1..];
      assert Split(line + text) == [[line[0]] + rest[0]] + rest[1..];
      assert [line[0]] + (line[1..] + pieces[0]) == line + pieces[0];
    } else {
      var pieces := Split(text);
      assert line + text == text && line + pieces[0] == pieces[0];
      assert pieces == [pieces[0]] + pieces[1..];
    }
  }

  lemma SplitAtNewline(text: string)
    requires text != [] && text[0] == '\n'
    ensures Split(text) == [""] + Split(text[1..])
  {
  }

  /** Splitting the transcript gives back the log lines, when none of them holds a line break. */
  lemma {:induction false} SplitJoin(lines: seq<string>)
    requires |lines| > 0 && NoNewlines(lines)
    ensures Split(Join(lines)) == lines
    decreases |lines|
  {
    if |lines| == 1 {
      SplitPrefix(lines[0], "");
      assert Split("") == [""];
      assert lines[0] + "" == lines[0];
      assert lines == [lines[0]];
    } else {
      var tail := Join(lines[1..]);
      var text := "\n" + tail;
      assert Join(lines) == lines[0] + text;
      assert text[1..] == tail;
      SplitJoin(lines[1..]);
      SplitAtNewline(text);
      SplitPrefix(lines[0], text);
      assert lines[0] + "" == lines[0];
      assert lines == [lines[0]] + lines[1..];
    }
  }

  /** Joining the pieces of any text with line breaks gives the text back. */
  lemma {:induction false} JoinSplit(text: string)
    ensures Join(Split(text)) == text
    decreases |text|
  {
    if text != [] {
      var rest := Split(text[1..]);
      JoinSplit(text[1..]);
      if text[0] == '\n' {
        assert Split(text) == [""] + rest;
        assert ([""] + rest)[1..] == rest;
        assert text == "\n" + text[1..];
      } else {
        var lines := [[text[0]] + rest[0]] + rest[1..];
        assert Split(text) == lines;
        if |rest| == 1 {
          assert Join(rest) == rest[0];
          assert text == [text[0]] + text[1..];
        } else {
          assert lines[1..] == rest[1..];
          assert Join(rest) == rest[0] + "\n" + Join(rest[1..]);
          assert text == [text[0]] + text[1..];
        }
      }
    }
  }
}
