/**
 * What `formatText` does section by section: lines outside the section between the
 * second and the third separator come out one by one, lines inside it are buffered and
 * come out paired, and no header marker survives.
 */
module FormatterSections {
  import opened JsStrings
  import opened Formatter

  /** A line that `formatText` treats as a header: not blank after trimming, and holding a `#`. */
  predicate IsHeaderLine(raw: string) {
    Trim(raw) != [] && '#' in Trim(raw)
  }

  /** A line that `formatText` counts as a separator: `----` at the start and no `#` anywhere. */
  predicate IsRuleLine(raw: string) {
    '#' !in Trim(raw) && StartsWith(Trim(raw), "----")
  }

  /** What a line contributes to the report outside the target section. */
  function Emit(raw: string): string {
    var line := Trim(raw);
    if line == [] then ""
    else if '#' in line then Trim(RemoveAll(line, '#')) + "\n"
    else if StartsWith(line, "----") then line + "\n\n"
    else EnsureEndsWithDot(line) + "\n"
  }

  /** The lines rendered one by one, with no merging. */
  function Unmerged(lines: seq<string>): string
    decreases |lines|
  {
    if lines == [] then "" else Unmerged(lines[..|lines| - 1]) + Emit(lines[|lines| - 1])
  }

  /** The number of separator lines. */
  function RuleCount(lines: seq<string>): nat
    decreases |lines|
  {
    if lines == [] then 0
    else RuleCount(lines[..|lines| - 1]) + (if IsRuleLine(lines[|lines| - 1]) then 1 else 0)
  }

  /** The flush of a buffered group, as it appears before the next separator or header. */
  function Flush(group: seq<string>): string {
    if group == [] then "" else PairUp(group) + "\n"
  }

  lemma {:induction false} UnmergedAppend(a: seq<string>, b: seq<string>)
    ensures Unmerged(a + b) == Unmerged(a) + Unmerged(b)
    decreases |b|
  {
    if b == [] {
      assert a + b == a;
    } else {
      var b' := b[..|b| - 1];
      calc {
        Unmerged(a + b);
        { assert (a + b)[..|a + b| - 1] == a + b'; }
        Unmerged(a + b') + Emit(b[|b| - 1]);
        { UnmergedAppend(a, b'); }
        (Unmerged(a) + Unmerged(b')) + Emit(b[|b| - 1]);
        { ConcatAssoc(Unmerged(a), Unmerged(b'), Emit(b[|b| - 1])); }
        Unmerged(a) + (Unmerged(b') + Emit(b[|b| - 1]));
      }
    }
  }

  lemma {:induction false} RuleCountAppend(a: seq<string>, b: seq<string>)
    ensures RuleCount(a + b) == RuleCount(a) + RuleCount(b)
    decreases |b|
  {
    if b == [] {
      assert a + b == a;
    } else {
      assert (a + b)[..|a + b| - 1] == a + b[..|b| - 1];
      RuleCountAppend(a, b[..|b| - 1]);
    }
  }

  /** Feeding two runs of lines is feeding their concatenation. */
  lemma {:induction false} FeedAppend(st: Formatter, a: seq<string>, b: seq<string>)
    ensures Feed(st, a + b) == Feed(Feed(st, a), b)
    decreases |b|
  {
    if b == [] {
      assert a + b == a;
    } else {
      assert (a + b)[..|a + b| - 1] == a + b[..|b| - 1];
      FeedAppend(st, a, b[..|b| - 1]);
    }
  }

  /**
   * Outside the target section, with nothing buffered, and with a separator count that cannot
   * reach exactly two (already past three, or too few separators ahead), every line is emitted
   * on its own and the target flag stays down.
   */
  lemma {:induction false} FeedOutside(st: Formatter, lines: seq<string>)
    requires !st.inTarget && st.group == []
    requires st.separators >= 3 || st.separators + RuleCount(lines) < 2
    ensures Feed(st, lines) == Formatter(st.out + Unmerged(lines), st.separators + RuleCount(lines), false, [])
    decreases |lines|
  {
    if lines != [] {
      var init := lines[..|lines| - 1];
      var raw := lines[|lines| - 1];
      FeedOutside(st, init);
      var prev := Feed(st, init);
      assert Step(prev, raw) == prev.(out := prev.out + Emit(raw), separators := prev.separators + (if IsRuleLine(raw) then 1 else 0));
      ConcatAssoc(st.out, Unmerged(init), Emit(raw));
    }
  }

  /** Trimming before normalising changes nothing. */
  lemma EnsureEndsWithDotOfTrim(raw: string)
    ensures EnsureEndsWithDot(Trim(raw)) == EnsureEndsWithDot(raw)
  {
    TrimSpec(raw);
    TrimOfTrimmed(Trim(raw));
  }

  lemma {:induction false} NormalizeAllAppend(a: seq<string>, b: seq<string>)
    ensures NormalizeAll(a + b) == NormalizeAll(a) + NormalizeAll(b)
    decreases |a|
  {
    if a == [] {
      assert a + b == b;
    } else {
      calc {
        NormalizeAll(a + b);
        { assert (a + b)[0] == a[0]; assert (a + b)[1..] == a[1..] + b; }
        [EnsureEndsWithDot(a[0])] + NormalizeAll(a[1..] + b);
        { NormalizeAllAppend(a[1..], b); }
        [EnsureEndsWithDot(a[0])] + (NormalizeAll(a[1..]) + NormalizeAll(b));
        { ConcatAssoc([EnsureEndsWithDot(a[0])], NormalizeAll(a[1..]), NormalizeAll(b)); }
        ([EnsureEndsWithDot(a[0])] + NormalizeAll(a[1..])) + NormalizeAll(b);
      }
    }
  }

  /** Buffering one more raw line adds its normalised form, unless it is blank. */
  lemma BufferLast(init: seq<string>, raw: string)
    ensures NormalizeAll(FilterNonBlank(init + [raw]))
         == NormalizeAll(FilterNonBlank(init)) + (if Trim(raw) == [] then [] else [EnsureEndsWithDot(Trim(raw))])
  {
    TrimSpec(raw);
    EnsureEndsWithDotOfTrim(raw);
    FilterNonBlankAppend(init, [raw]);
    assert FilterNonBlank([raw]) == if IsBlank(raw) then [] else [raw] by {
      assert [raw][1..] == [];
    }
    NormalizeAllAppend(FilterNonBlank(init), FilterNonBlank([raw]));
    assert NormalizeAll([raw]) == [EnsureEndsWithDot(raw)] by {
      assert [raw][1..] == [];
    }
  }

  /**
   * Inside the target section, a run with no header and no separator only grows the pending
   * group, by its non-blank lines normalised in order: `formatLineGroup`'s own preparation.
   */
  /** One line of the target section that is neither a header nor a separator. */
  lemma StepBuffered(st: Formatter, raw: string)
    requires st.inTarget && !IsHeaderLine(raw) && !IsRuleLine(raw)
    ensures Step(st, raw) == st.(group := st.group + (if Trim(raw) == [] then [] else [EnsureEndsWithDot(Trim(raw))]))
  {
    if Trim(raw) == [] {
      assert st.group + [] == st.group;
    }
  }

  /** The inductive step of `FeedTarget`: one more bufferable line. */
  lemma FeedTargetStep(st: Formatter, init: seq<string>, raw: string)
    requires st.inTarget && !IsHeaderLine(raw) && !IsRuleLine(raw)
    requires Feed(st, init) == st.(group := st.group + NormalizeAll(FilterNonBlank(init)))
    ensures Feed(st, init + [raw]) == st.(group := st.group + NormalizeAll(FilterNonBlank(init + [raw])))
  {
    var g := NormalizeAll(FilterNonBlank(init));
    var tail := if Trim(raw) == [] then [] else [EnsureEndsWithDot(Trim(raw))];
    calc {
      Feed(st, init + [raw]);
      { assert (init + [raw])[..|init|] == init; }
      Step(st.(group := st.group + g), raw);
      { StepBuffered(st.(group := st.group + g), raw); }
      st.(group := (st.group + g) + tail);
      { ConcatAssoc(st.group, g, tail); }
      st.(group := st.group + (g + tail));
      { BufferLast(init, raw); }
      st.(group := st.group + NormalizeAll(FilterNonBlank(init + [raw])));
    }
  }

  lemma {:induction false} FeedTarget(st: Formatter, lines: seq<string>)
    requires st.inTarget
    requires forall i :: 0 <= i < |lines| ==> !IsHeaderLine(lines[i]) && !IsRuleLine(lines[i])
    ensures Feed(st, lines) == st.(group := st.group + NormalizeAll(FilterNonBlank(lines)))
    decreases |lines|
  {
    if lines == [] {
      assert st.group + [] == st.group;
    } else {
      var init := lines[..|lines| - 1];
      assert init + [lines[|lines| - 1]] == lines;
      FeedTarget(st, init);
      FeedTargetStep(st, init, lines[|lines| - 1]);
    }
  }

  /** The text before the target section: two separators, and the flag is up with nothing buffered. */
  lemma FeedToTarget(s0: seq<string>, r1: string, s1: seq<string>, r2: string)
    requires RuleCount(s0) == 0 && RuleCount(s1) == 0
    requires IsRuleLine(r1) && IsRuleLine(r2)
    ensures Feed(Start, s0 + [r1] + s1 + [r2]) == Formatter(Unmerged(s0 + [r1] + s1 + [r2]), 2, true, [])
  {
    var a := s0 + [r1] + s1;
    var all := a + [r2];
    assert RuleCount(s0 + [r1]) == 1 by {
      assert (s0 + [r1])[..|s0|] == s0;
    }
    RuleCountAppend(s0 + [r1], s1);
    FeedOutside(Start, a);
    assert all[..|all| - 1] == a;
    assert "" + Unmerged(a) == Unmerged(a);
  }

  /** A separator line: the group is flushed, the line emitted, the counter moves on, the flag means "exactly two". */
  lemma StepRule(st: Formatter, raw: string)
    requires IsRuleLine(raw)
    ensures Step(st, raw) == Formatter(FlushGroup(st.out, st.group) + Emit(raw), st.separators + 1, st.separators + 1 == 2, [])
  {
  }

  /** One line fed from a state. */
  lemma FeedOne(st: Formatter, raw: string)
    ensures Feed(st, [raw]) == Step(st, raw)
  {
    assert [raw][..0] == [];
  }

  /** From the third separator on nothing is buffered again: the rest is emitted line by line. */
  lemma FeedAfterThird(st: Formatter, r3: string, s3: seq<string>)
    requires st.separators == 2 && IsRuleLine(r3)
    ensures Feed(st, [r3] + s3) == Formatter(FlushGroup(st.out, st.group) + Unmerged([r3] + s3), 3 + RuleCount(s3), false, [])
  {
    var flushed := FlushGroup(st.out, st.group);
    calc {
      Feed(st, [r3] + s3);
      { FeedAppend(st, [r3], s3); }
      Feed(Feed(st, [r3]), s3);
      { FeedOne(st, r3); StepRule(st, r3); }
      Feed(Formatter(flushed + Emit(r3), 3, false, []), s3);
      { FeedOutside(Formatter(flushed + Emit(r3), 3, false, []), s3); }
      Formatter((flushed + Emit(r3)) + Unmerged(s3), 3 + RuleCount(s3), false, []);
      { ConcatAssoc(flushed, Emit(r3), Unmerged(s3));
        UnmergedAppend([r3], s3);
        assert Unmerged([r3]) == Emit(r3) by { assert [r3][..0] == []; } }
      Formatter(flushed + Unmerged([r3] + s3), 3 + RuleCount(s3), false, []);
    }
  }

  /**
   * With separators r1, r2, r3, headers nowhere between r2 and r3, and any text after r3:
   * the section between the second and the third separator is the only one merged pairwise,
   * everything else comes out one line at a time.
   */
  lemma OnlySecondSectionMerged(s0: seq<string>, r1: string, s1: seq<string>, r2: string,
                                s2: seq<string>, r3: string, s3: seq<string>)
    requires RuleCount(s0) == 0 && RuleCount(s1) == 0
    requires IsRuleLine(r1) && IsRuleLine(r2) && IsRuleLine(r3)
    requires forall i :: 0 <= i < |s2| ==> !IsHeaderLine(s2[i]) && !IsRuleLine(s2[i])
    ensures Report(s0 + [r1] + s1 + [r2] + s2 + [r3] + s3) == Trim(Unmerged(s0 + [r1] + s1 + [r2])
                                    + Flush(NormalizeAll(FilterNonBlank(s2)))
                                    + Unmerged([r3] + s3))
  {
    var a := s0 + [r1] + s1 + [r2];
    var g := NormalizeAll(FilterNonBlank(s2));
    var b := [r3] + s3;
    var target := Formatter(Unmerged(a), 2, true, g);
    calc {
      Feed(Start, s0 + [r1] + s1 + [r2] + s2 + [r3] + s3);
      { assert s0 + [r1] + s1 + [r2] + s2 + [r3] + s3 == (a + s2) + b; }
      Feed(Start, (a + s2) + b);
      { FeedAppend(Start, a + s2, b); FeedAppend(Start, a, s2); }
      Feed(Feed(Feed(Start, a), s2), b);
      { FeedToTarget(s0, r1, s1, r2); FeedTarget(Formatter(Unmerged(a), 2, true, []), s2);
        assert [] + g == g; }
      Feed(target, b);
      { FeedAfterThird(target, r3, s3); }
      Formatter(FlushGroup(Unmerged(a), g) + Unmerged(b), 3 + RuleCount(s3), false, []);
    }
    assert FlushGroup(Unmerged(a), g) == Unmerged(a) + Flush(g) by {
      if g != [] {
        ConcatAssoc(Unmerged(a), PairUp(g), "\n");
      } else {
        assert Unmerged(a) + "" == Unmerged(a);
      }
    }
  }

  /** With the text ending inside the target section, the pending lines are paired in the final flush. */
  lemma TrailingSectionMerged(s0: seq<string>, r1: string, s1: seq<string>, r2: string, s2: seq<string>)
    requires RuleCount(s0) == 0 && RuleCount(s1) == 0
    requires IsRuleLine(r1) && IsRuleLine(r2)
    requires forall i :: 0 <= i < |s2| ==> !IsHeaderLine(s2[i]) && !IsRuleLine(s2[i])
    ensures var g := NormalizeAll(FilterNonBlank(s2));
            Report(s0 + [r1] + s1 + [r2] + s2) == Trim(Unmerged(s0 + [r1] + s1 + [r2]) + (if g == [] then "" else PairUp(g)))
  {
    var a := s0 + [r1] + s1 + [r2];
    var g := NormalizeAll(FilterNonBlank(s2));
    calc {
      Feed(Start, a + s2);
      { FeedAppend(Start, a, s2); }
      Feed(Feed(Start, a), s2);
      { FeedToTarget(s0, r1, s1, r2); FeedTarget(Formatter(Unmerged(a), 2, true, []), s2);
        assert [] + g == g; }
      Formatter(Unmerged(a), 2, true, g);
    }
    assert Finish(Formatter(Unmerged(a), 2, true, g)) == Unmerged(a) + (if g == [] then "" else PairUp(g)) by {
      if g == [] {
        assert Unmerged(a) + "" == Unmerged(a);
      }
    }
  }

  /** A header line: the group is flushed, the line written without its `#`, and the section flag kept. */
  lemma StepHeader(st: Formatter, raw: string)
    requires IsHeaderLine(raw)
    ensures Step(st, raw) == st.(out := FlushGroup(st.out, st.group) + Emit(raw), group := [])
  {
  }

  lemma FlushGroupIsFlush(out: string, group: seq<string>)
    ensures FlushGroup(out, group) == out + Flush(group)
  {
    if group == [] {
      assert out + "" == out;
    } else {
      ConcatAssoc(out, PairUp(group), "\n");
    }
  }

  /** Lines that are neither headers nor separators. */
  predicate PlainRun(lines: seq<string>) {
    forall i :: 0 <= i < |lines| ==> !IsHeaderLine(lines[i]) && !IsRuleLine(lines[i])
  }

  /** The runs of a section laid out with a header between each two of them. */
  function Interleave(runs: seq<seq<string>>, headers: seq<string>): seq<string>
    requires |runs| == |headers| + 1
    decreases |headers|
  {
    if headers == [] then runs[0]
    else Interleave(runs[..|runs| - 1], headers[..|headers| - 1]) + [headers[|headers| - 1]] + runs[|runs| - 1]
  }

  /** What a target section split at headers writes before its last run: each run paired, then its header. */
  function HeaderFlushes(runs: seq<seq<string>>, headers: seq<string>): string
    requires |runs| == |headers| + 1
    decreases |headers|
  {
    if headers == [] then ""
    else HeaderFlushes(runs[..|runs| - 1], headers[..|headers| - 1])
         + Flush(NormalizeAll(FilterNonBlank(runs[|runs| - 2]))) + Emit(headers[|headers| - 1])
  }

  /** The inductive step of `FeedSection`: one more header and the run after it. */
  lemma FeedSectionStep(st: Formatter, prefix: seq<string>, h: string, r: seq<string>)
    requires Feed(st, prefix).inTarget && IsHeaderLine(h) && PlainRun(r)
    ensures Feed(st, prefix + [h] + r) ==
      Feed(st, prefix).(out := FlushGroup(Feed(st, prefix).out, Feed(st, prefix).group) + Emit(h),
                        group := NormalizeAll(FilterNonBlank(r)))
  {
    var mid := Feed(st, prefix);
    var next := mid.(out := FlushGroup(mid.out, mid.group) + Emit(h), group := []);
    calc {
      Feed(st, prefix + [h] + r);
      { FeedAppend(st, prefix + [h], r); FeedAppend(st, prefix, [h]); }
      Feed(Feed(mid, [h]), r);
      { FeedOne(mid, h); StepHeader(mid, h); }
      Feed(next, r);
      { FeedTarget(next, r); assert [] + NormalizeAll(FilterNonBlank(r)) == NormalizeAll(FilterNonBlank(r)); }
      next.(group := NormalizeAll(FilterNonBlank(r)));
    }
  }

  /**
   * A target section with headers in it: each run between headers is paired and flushed at the
   * header that ends it, the header is written in place, the section stays open, and the last
   * run is left pending.
   */
  lemma {:induction false} FeedSection(st: Formatter, runs: seq<seq<string>>, headers: seq<string>)
    requires st.inTarget && st.group == []
    requires |runs| == |headers| + 1
    requires forall k :: 0 <= k < |runs| ==> PlainRun(runs[k])
    requires forall k :: 0 <= k < |headers| ==> IsHeaderLine(headers[k])
    ensures Feed(st, Interleave(runs, headers)) ==
      st.(out := st.out + HeaderFlushes(runs, headers), group := NormalizeAll(FilterNonBlank(runs[|runs| - 1])))
    decreases |headers|
  {
    if headers == [] {
      FeedTarget(st, runs[0]);
      assert st.out + "" == st.out;
      assert [] + NormalizeAll(FilterNonBlank(runs[0])) == NormalizeAll(FilterNonBlank(runs[0]));
    } else {
      var runs', headers' := runs[..|runs| - 1], headers[..|headers| - 1];
      var h, r := headers[|headers| - 1], runs[|runs| - 1];
      assert forall k :: 0 <= k < |runs'| ==> runs'[k] == runs[k];
      assert forall k :: 0 <= k < |headers'| ==> headers'[k] == headers[k];
      FeedSection(st, runs', headers');
      var hf := HeaderFlushes(runs', headers');
      var g := NormalizeAll(FilterNonBlank(runs'[|runs'| - 1]));
      assert runs'[|runs'| - 1] == runs[|runs| - 2];
      FeedSectionStep(st, Interleave(runs', headers'), h, r);
      calc {
        FlushGroup(st.out + hf, g) + Emit(h);
        { FlushGroupIsFlush(st.out + hf, g); }
        ((st.out + hf) + Flush(g)) + Emit(h);
        { ConcatAssoc(st.out, hf, Flush(g)); ConcatAssoc(st.out, hf + Flush(g), Emit(h)); }
        st.out + HeaderFlushes(runs, headers);
      }
    }
  }

  /**
   * The general three-separator case: the section between the second and the third separator may
   * hold headers; each run between them is paired on its own and each header written in place.
   */
  lemma SectionMergedAroundHeaders(s0: seq<string>, r1: string, s1: seq<string>, r2: string,
                                   runs: seq<seq<string>>, headers: seq<string>, r3: string, s3: seq<string>)
    requires RuleCount(s0) == 0 && RuleCount(s1) == 0
    requires IsRuleLine(r1) && IsRuleLine(r2) && IsRuleLine(r3)
    requires |runs| == |headers| + 1
    requires forall k :: 0 <= k < |runs| ==> PlainRun(runs[k])
    requires forall k :: 0 <= k < |headers| ==> IsHeaderLine(headers[k])
    ensures Report(s0 + [r1] + s1 + [r2] + Interleave(runs, headers) + [r3] + s3) ==
      Trim(Unmerged(s0 + [r1] + s1 + [r2]) + HeaderFlushes(runs, headers)
           + Flush(NormalizeAll(FilterNonBlank(runs[|runs| - 1]))) + Unmerged([r3] + s3))
  {
    var a := s0 + [r1] + s1 + [r2];
    var s2 := Interleave(runs, headers);
    var hf := HeaderFlushes(runs, headers);
    var g := NormalizeAll(FilterNonBlank(runs[|runs| - 1]));
    var b := [r3] + s3;
    var target := Formatter(Unmerged(a) + hf, 2, true, g);
    calc {
      Feed(Start, s0 + [r1] + s1 + [r2] + s2 + [r3] + s3);
      { assert s0 + [r1] + s1 + [r2] + s2 + [r3] + s3 == (a + s2) + b; }
      Feed(Start, (a + s2) + b);
      { FeedAppend(Start, a + s2, b); FeedAppend(Start, a, s2); }
      Feed(Feed(Feed(Start, a), s2), b);
      { FeedToTarget(s0, r1, s1, r2); FeedSection(Formatter(Unmerged(a), 2, true, []), runs, headers); }
      Feed(target, b);
      { FeedAfterThird(target, r3, s3); }
      Formatter(FlushGroup(Unmerged(a) + hf, g) + Unmerged(b), 3 + RuleCount(s3), false, []);
    }
    FlushGroupIsFlush(Unmerged(a) + hf, g);
  }

  /** The two-separator case with headers after the second separator: the last run is paired in the final flush. */
  lemma TrailingSectionAroundHeaders(s0: seq<string>, r1: string, s1: seq<string>, r2: string,
                                     runs: seq<seq<string>>, headers: seq<string>)
    requires RuleCount(s0) == 0 && RuleCount(s1) == 0
    requires IsRuleLine(r1) && IsRuleLine(r2)
    requires |runs| == |headers| + 1
    requires forall k :: 0 <= k < |runs| ==> PlainRun(runs[k])
    requires forall k :: 0 <= k < |headers| ==> IsHeaderLine(headers[k])
    ensures var g := NormalizeAll(FilterNonBlank(runs[|runs| - 1]));
      Report(s0 + [r1] + s1 + [r2] + Interleave(runs, headers)) ==
      Trim(Unmerged(s0 + [r1] + s1 + [r2]) + HeaderFlushes(runs, headers) + (if g == [] then "" else PairUp(g)))
  {
    var a := s0 + [r1] + s1 + [r2];
    var hf := HeaderFlushes(runs, headers);
    var g := NormalizeAll(FilterNonBlank(runs[|runs| - 1]));
    FeedAppend(Start, a, Interleave(runs, headers));
    FeedToTarget(s0, r1, s1, r2);
    FeedSection(Formatter(Unmerged(a), 2, true, []), runs, headers);
    assert Feed(Start, a + Interleave(runs, headers)) == Formatter(Unmerged(a) + hf, 2, true, g);
    if g == [] {
      assert Unmerged(a) + hf + "" == Unmerged(a) + hf;
    }
  }

  /** With fewer than two separators nothing is ever buffered: the report is the lines one by one. */
  lemma FewSeparatorsNothingMerged(text: string)
    requires RuleCount(Split(text, '\n')) < 2
    ensures Formatted(text) == Trim(Unmerged(Split(text, '\n')))
  {
    FeedOutside(Start, Split(text, '\n'));
    assert "" + Unmerged(Split(text, '\n')) == Unmerged(Split(text, '\n'));
  }

  /** A character that no line holds appears nowhere in their pairing, other than space and newline. */
  lemma {:induction false} PairsFromLacks(lines: seq<string>, i: nat, c: char)
    requires c != ' ' && c != '\n'
    requires forall j :: 0 <= j < |lines| ==> c !in lines[j]
    ensures c !in PairsFrom(lines, i)
    decreases |lines| - i
  {
    if i < |lines| {
      PairsFromLacks(lines, i + 1 + 1, c);
    }
  }

  /** The loop state with no `#` written so far. */
  predicate NoHash(st: Formatter) {
    Inv(st) && '#' !in st.out
  }

  lemma StepNoHash(st: Formatter, raw: string)
    requires NoHash(st) && '\n' !in raw
    ensures NoHash(Step(st, raw))
  {
    StepInv(st, raw);
    var line := Trim(raw);
    PairsFromLacks(st.group, 0, '#');
    if line != [] && '#' in line {
      NotInTrim(RemoveAll(line, '#'), '#');
    } else if line != [] && !StartsWith(line, "----") && !st.inTarget {
      EnsureEndsWithDotChars(line, '#');
    }
  }

  lemma {:induction false} FeedNoHash(lines: seq<string>)
    requires forall i :: 0 <= i < |lines| ==> '\n' !in lines[i]
    ensures NoHash(Feed(Start, lines))
    decreases |lines|
  {
    if lines != [] {
      FeedNoHash(lines[..|lines| - 1]);
      StepNoHash(Feed(Start, lines[..|lines| - 1]), lines[|lines| - 1]);
    }
  }

  /** Header markers never reach the report: every `#` is stripped. */
  lemma ReportHasNoHash(text: string)
    ensures '#' !in Formatted(text)
  {
    var st := Feed(Start, Split(text, '\n'));
    FeedNoHash(Split(text, '\n'));
    PairsFromLacks(st.group, 0, '#');
    NotInTrim(Finish(st), '#');
  }
}
