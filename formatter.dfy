/**
 * The report formatter of the page: `ensureEndsWithDot`, `formatLineGroup` and
 * `formatText`. `formatText` reads the raw export text line by line, counts the
 * separator lines it meets and merges the lines of the section between the second
 * and the third separator two by two.
 */
module Formatter {
  import opened JsStrings

  /** The last character is one of `. ! ? , :` (the class of the regular expression). */
  predicate EndsWithTerminator(s: string) {
    |s| > 0 && s[|s| - 1] in {'.', '!', '?', ',', ':'}
  }

  /** `ensureEndsWithDot`: the trimmed line, with a full stop added unless it already ends in punctuation. */
  function EnsureEndsWithDot(line: string): string {
    var t := Trim(line);
    if EndsWithTerminator(t) then t else t + "."
  }

  /**
   * The normalised line ends in punctuation and has no surrounding whitespace; it is the
   * trimmed line itself when that already ends in punctuation, else the trimmed line and a full stop.
   */
  lemma EnsureEndsWithDotSpec(line: string)
    ensures EndsWithTerminator(EnsureEndsWithDot(line)) && IsTrimmed(EnsureEndsWithDot(line))
    ensures EnsureEndsWithDot(line) == Trim(line) <==> EndsWithTerminator(Trim(line))
    ensures !EndsWithTerminator(Trim(line)) ==> EnsureEndsWithDot(line) == Trim(line) + "."
  {
    var t := Trim(line);
    TrimSpec(line);
    assert (t + ".")[0] == if t == [] then '.' else t[0];
  }

  /** Normalising adds no character other than a full stop. */
  lemma EnsureEndsWithDotChars(line: string, c: char)
    requires c !in line && c != '.'
    ensures c !in EnsureEndsWithDot(line)
  {
    NotInTrim(line, c);
  }

  /** Normalising twice is normalising once, so re-normalising a buffered line changes nothing. */
  lemma EnsureEndsWithDotIdempotent(line: string)
    ensures EnsureEndsWithDot(EnsureEndsWithDot(line)) == EnsureEndsWithDot(line)
  {
    EnsureEndsWithDotSpec(line);
    TrimOfTrimmed(EnsureEndsWithDot(line));
  }

  /** A normalised line is never blank. */
  lemma NormalizedIsNotBlank(line: string)
    ensures !IsBlank(EnsureEndsWithDot(line))
  {
    var r := EnsureEndsWithDot(line);
    EnsureEndsWithDotSpec(line);
    assert !IsSpace(r[|r| - 1]);
  }

  /** `lines.map(ensureEndsWithDot)`. */
  function NormalizeAll(lines: seq<string>): (r: seq<string>)
    ensures |r| == |lines|
  {
    if lines == [] then [] else [EnsureEndsWithDot(lines[0])] + NormalizeAll(lines[1..])
  }

  /** The lines `formatLineGroup` works on: split at newlines, blank ones dropped, each normalised. */
  function PrepareGroup(group: string): seq<string> {
    NormalizeAll(FilterNonBlank(Split(group, '\n')))
  }

  /** Output line of the pair starting at line i: `lines[i] + " " + (lines[i + 1] || '')`. */
  function PairedLine(lines: seq<string>, i: nat): string
    requires i < |lines|
  {
    lines[i] + " " + (if i + 1 < |lines| then lines[i + 1] else "")
  }

  /** What the stepping loop of `formatLineGroup` appends from line i on. */
  function PairsFrom(lines: seq<string>, i: nat): string
    decreases |lines| - i
  {
    if i < |lines| then PairedLine(lines, i) + "\n" + PairsFrom(lines, i + 2) else ""
  }

  /** Lines 2k and 2k+1 joined by a space, each pair followed by a newline. */
  function PairUp(lines: seq<string>): string {
    PairsFrom(lines, 0)
  }

  /** The output lines of the pairing, stated by position. */
  function PairedLines(lines: seq<string>): seq<string> {
    seq((|lines| + 1) / 2, k requires 0 <= k < (|lines| + 1) / 2 => PairedLine(lines, 2 * k))
  }

  lemma {:induction false} PairsFromLines(lines: seq<string>, k: nat)
    requires k <= (|lines| + 1) / 2
    ensures PairsFrom(lines, 2 * k) == Terminated(PairedLines(lines)[k..], '\n')
    decreases |lines| - 2 * k
  {
    if 2 * k < |lines| {
      PairsFromLines(lines, k + 1);
      var ls := PairedLines(lines)[k..];
      assert ls[0] == PairedLine(lines, 2 * k);
      assert ls[1..] == PairedLines(lines)[k + 1..];
    }
  }

  /**
   * The pairing of n lines is ceil(n/2) output lines, each followed by a newline: line k
   * is `lines[2k] + " " + lines[2k+1]`, or `lines[2k] + " "` for an odd last line.
   */
  lemma PairUpLines(lines: seq<string>)
    ensures PairUp(lines) == Terminated(PairedLines(lines), '\n')
    ensures |PairedLines(lines)| == (|lines| + 1) / 2
    ensures forall k :: 0 <= k < |lines| / 2 ==> PairedLines(lines)[k] == lines[2 * k] + " " + lines[2 * k + 1]
    ensures |lines| % 2 == 1 ==> PairedLines(lines)[|lines| / 2] == lines[|lines| - 1] + " "
  {
    PairsFromLines(lines, 0);
    assert PairedLines(lines)[0..] == PairedLines(lines);
  }

  /** Read back with `split('\n')`, the pairing of one-line strings gives its output lines and an empty tail. */
  lemma PairUpSplit(lines: seq<string>)
    requires forall i :: 0 <= i < |lines| ==> '\n' !in lines[i]
    ensures Split(PairUp(lines), '\n') == PairedLines(lines) + [""]
  {
    var out := PairedLines(lines);
    forall k | 0 <= k < |out| ensures '\n' !in out[k] {
      assert out[k] == PairedLine(lines, 2 * k);
    }
    PairUpLines(lines);
    SplitTerminated(out, '\n');
  }

  /** `formatLineGroup`, with its stepping loop. */
  method FormatLineGroup(group: string) returns (r: string)
    ensures r == PairUp(PrepareGroup(group))
  {
    var processedLines := PrepareGroup(group);
    r := "";
    var i := 0;
    while i < |processedLines|
      invariant r + PairsFrom(processedLines, i) == PairUp(processedLines)
    {
      var line1 := processedLines[i];
      var line2 := if i + 1 < |processedLines| then processedLines[i + 1] else "";
      var pair := line1 + " " + line2 + "\n";
      assert PairsFrom(processedLines, i) == pair + PairsFrom(processedLines, i + 2);
      assert r + (pair + PairsFrom(processedLines, i + 2)) == (r + pair) + PairsFrom(processedLines, i + 2);
      r := r + pair;
      i := i + 2;
    }
  }

  /** A line as it sits in the pending group: normalised, one line, no `#`. */
  predicate IsBufferedLine(x: string) {
    '\n' !in x && '#' !in x && EnsureEndsWithDot(x) == x
  }

  /** A normalised line normalises to itself, so `NormalizeAll` leaves a group of them unchanged. */
  lemma {:induction false} NormalizeAllFixed(group: seq<string>)
    requires forall i :: 0 <= i < |group| ==> EnsureEndsWithDot(group[i]) == group[i]
    ensures NormalizeAll(group) == group
  {
    if group != [] {
      calc {
        NormalizeAll(group);
        [EnsureEndsWithDot(group[0])] + NormalizeAll(group[1..]);
        { NormalizeAllFixed(group[1..]); }
        [group[0]] + group[1..];
        { assert group == [group[0]] + group[1..]; }
        group;
      }
    }
  }

  /** Joining the pending group and handing it to `formatLineGroup` re-splits it into the same lines. */
  lemma GroupRoundTrip(group: seq<string>)
    requires |group| > 0
    requires forall i :: 0 <= i < |group| ==> IsBufferedLine(group[i])
    ensures PrepareGroup(Join(group, '\n')) == group
  {
    calc {
      PrepareGroup(Join(group, '\n'));
      NormalizeAll(FilterNonBlank(Split(Join(group, '\n'), '\n')));
      { SplitJoin(group, '\n'); }
      NormalizeAll(FilterNonBlank(group));
      { forall i | 0 <= i < |group| ensures !IsBlank(group[i]) {
          NormalizedIsNotBlank(group[i]);
        }
        FilterNonBlankOfNonBlank(group); }
      NormalizeAll(group);
      { NormalizeAllFixed(group); }
      group;
    }
  }

  /** The variables of the `formatText` loop. */
  datatype Formatter = Formatter(out: string, separators: nat, inTarget: bool, group: seq<string>)

  const Start := Formatter("", 0, false, [])

  /** `out` after flushing the pending group before a header or separator. */
  function FlushGroup(out: string, group: seq<string>): string {
    if |group| > 0 then out + (PairUp(group) + "\n") else out
  }

  /** One iteration of the `formatText` loop on a raw line. */
  function Step(st: Formatter, raw: string): Formatter {
    var line := Trim(raw);
    if line == [] then st
    else if '#' in line then
      st.(out := FlushGroup(st.out, st.group) + (Trim(RemoveAll(line, '#')) + "\n"), group := [])
    else if StartsWith(line, "----") then
      var count := st.separators + 1;
      Formatter(FlushGroup(st.out, st.group) + (line + "\n\n"), count, count >= 2 && count < 3, [])
    else if st.inTarget then
      st.(group := st.group + [EnsureEndsWithDot(line)])
    else
      st.(out := st.out + (EnsureEndsWithDot(line) + "\n"))
  }

  /** The loop state after the given lines. */
  function Feed(st: Formatter, lines: seq<string>): Formatter
    decreases |lines|
  {
    if lines == [] then st else Step(Feed(st, lines[..|lines| - 1]), lines[|lines| - 1])
  }

  /** The last flush (no newline after it). */
  function Finish(st: Formatter): string {
    if |st.group| > 0 then st.out + PairUp(st.group) else st.out
  }

  /** The report built from a sequence of raw lines. */
  function Report(lines: seq<string>): string {
    Trim(Finish(Feed(Start, lines)))
  }

  /** The report `formatText` returns for `text`. */
  function Formatted(text: string): string {
    Report(Split(text, '\n'))
  }

  /** The state the loop keeps: the target flag means "exactly two separators seen", lines wait only there. */
  predicate Inv(st: Formatter) {
    && (st.inTarget <==> st.separators == 2)
    && (st.group != [] ==> st.inTarget)
    && forall i :: 0 <= i < |st.group| ==> IsBufferedLine(st.group[i])
  }

  lemma StepInv(st: Formatter, raw: string)
    requires Inv(st) && '\n' !in raw
    ensures Inv(Step(st, raw))
  {
    var line := Trim(raw);
    if line != [] && '#' !in line && !StartsWith(line, "----") && st.inTarget {
      NotInTrim(raw, '\n');
      EnsureEndsWithDotChars(line, '\n');
      EnsureEndsWithDotChars(line, '#');
      EnsureEndsWithDotIdempotent(line);
      assert IsBufferedLine(EnsureEndsWithDot(line));
      assert Step(st, raw).group == st.group + [EnsureEndsWithDot(line)];
    }
  }

  lemma {:induction false} FeedInv(lines: seq<string>)
    requires forall i :: 0 <= i < |lines| ==> '\n' !in lines[i]
    ensures Inv(Feed(Start, lines))
    decreases |lines|
  {
    if lines != [] {
      FeedInv(lines[..|lines| - 1]);
      StepInv(Feed(Start, lines[..|lines| - 1]), lines[|lines| - 1]);
    }
  }

  /** `formatLineGroup` applied to the joined pending group. */
  method FlushPending(group: seq<string>) returns (flushed: string)
    requires |group| > 0
    requires forall i :: 0 <= i < |group| ==> IsBufferedLine(group[i])
    ensures flushed == PairUp(group)
  {
    GroupRoundTrip(group);
    flushed := FormatLineGroup(Join(group, '\n'));
  }

  /** `formatText`: one pass over the lines with a separator counter, a target flag and a pending group. */
  method FormatText(text: string) returns (r: string)
    ensures r == Formatted(text)
  {
    var lines := Split(text, '\n');
    var result := "";
    var separatorCount: nat := 0;
    var inTargetSection := false;
    var currentGroup: seq<string> := [];
    for i := 0 to |lines|
      invariant Formatter(result, separatorCount, inTargetSection, currentGroup) == Feed(Start, lines[..i])
      invariant Inv(Feed(Start, lines[..i]))
    {
      assert Feed(Start, lines[..i + 1]) == Step(Feed(Start, lines[..i]), lines[i]) by {
        assert lines[..i + 1][..i] == lines[..i];
      }
      StepInv(Feed(Start, lines[..i]), lines[i]);
      var line := Trim(lines[i]);
      if line == [] {
        continue;
      }
      if '#' in line {
        if |currentGroup| > 0 {
          var flushed := FlushPending(currentGroup);
          result := result + (flushed + "\n");
          currentGroup := [];
        }
        line := Trim(RemoveAll(line, '#'));
        result := result + (line + "\n");
        continue;
      }
      if StartsWith(line, "----") {
        separatorCount := separatorCount + 1;
        if |currentGroup| > 0 {
          var flushed := FlushPending(currentGroup);
          result := result + (flushed + "\n");
          currentGroup := [];
        }
        inTargetSection := separatorCount >= 2 && separatorCount < 3;
        result := result + (line + "\n\n");
        continue;
      }
      if inTargetSection {
        currentGroup := currentGroup + [EnsureEndsWithDot(line)];
      } else {
        result := result + (EnsureEndsWithDot(line) + "\n");
      }
    }
    assert lines[..|lines|] == lines;
    if |currentGroup| > 0 {
      var flushed := FlushPending(currentGroup);
      result := result + flushed;
    }
    r := Trim(result);
  }
}
