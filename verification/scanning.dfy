/** The run scanner: how the engine finds the instructions hidden in a
    paragraph's runs (printProcessingInstructions and the run loop of
    processVariables). */
module Scanning {
  import opened Docs

  /** A range of run indices, both ends included (instStartRun, instEndRun). */
  datatype Span = Span(start: nat, end: nat)

  predicate InRange(runs: seq<Run>, s: Span)
  {
    s.start <= s.end < |runs|
  }

  predicate AllInRange(runs: seq<Run>, spans: seq<Span>)
  {
    forall k :: 0 <= k < |spans| ==> InRange(runs, spans[k])
  }

  /** The merged text of a span: the texts of its runs in order. */
  function Merged(runs: seq<Run>, s: Span): string
    requires InRange(runs, s)
  {
    RangeText(runs, s.start, s.end + 1)
  }

  /** The instruction spans of a run list, in the order a left-to-right scan
      closes them: an instruction run extends the span that the previous run
      belongs to, or opens a new one. */
  function Spans(runs: seq<Run>): (r: seq<Span>)
    ensures AllInRange(runs, r)
  {
    if runs == [] then []
    else
      var n := |runs| - 1;
      var before := Spans(runs[..n]);
      if !IsInstructionRun(runs[n]) then before
      else if n > 0 && IsInstructionRun(runs[n - 1]) then
        before[..|before| - 1] + [Span(before[|before| - 1].start, n)]
      else before + [Span(n, n)]
  }

  /** A run list that ends with an instruction run has a last span, ending at its last
      run. */
  lemma {:induction false} SpansLast(runs: seq<Run>)
    requires |runs| > 0 && IsInstructionRun(runs[|runs| - 1])
    ensures |Spans(runs)| > 0 && Spans(runs)[|Spans(runs)| - 1].end == |runs| - 1
  {
    var n := |runs| - 1;
    if n > 0 && IsInstructionRun(runs[n - 1]) {
      assert runs[..n][n - 1] == runs[n - 1];
      SpansLast(runs[..n]);
    }
  }

  /** A maximal block of adjacent instruction runs. */
  predicate IsBlock(runs: seq<Run>, s: Span)
  {
    && InRange(runs, s)
    && (forall j :: s.start <= j <= s.end ==> IsInstructionRun(runs[j]))
    && (s.start == 0 || !IsInstructionRun(runs[s.start - 1]))
    && (s.end == |runs| - 1 || !IsInstructionRun(runs[s.end + 1]))
  }

  /** Earlier spans end before later spans start, with at least one run between them. */
  predicate Separated(spans: seq<Span>)
  {
    forall k1, k2 :: 0 <= k1 < k2 < |spans| ==> spans[k1].end + 1 < spans[k2].start
  }

  /** The scan finds exactly the maximal blocks of instruction runs, in document order,
      including a block that ends at the last run. */
  lemma {:induction false} SpansAreMaximalBlocks(runs: seq<Run>)
    ensures forall s :: s in Spans(runs) <==> IsBlock(runs, s)
    ensures Separated(Spans(runs))
    decreases |runs|
  {
    if runs != [] {
      var n := |runs| - 1;
      var pre := runs[..n];
      var before := Spans(pre);
      SpansAreMaximalBlocks(pre);
      if !IsInstructionRun(runs[n]) {
        forall s ensures IsBlock(runs, s) <==> IsBlock(pre, s) {
          BlockOfShorter(runs, s);
        }
      } else if n > 0 && IsInstructionRun(runs[n - 1]) {
        ExtendedBlock(runs, before);
      } else {
        NewBlock(runs, before);
      }
    }
  }

  /** Every span found starts at an instruction run. */
  lemma {:induction false} SpanStartsAtInstruction(runs: seq<Run>, k: nat)
    requires k < |Spans(runs)|
    ensures Spans(runs)[k].start < |runs| && IsInstructionRun(runs[Spans(runs)[k].start])
  {
    var s := Spans(runs)[k];
    SpansAreMaximalBlocks(runs);
    assert s in Spans(runs);
    assert IsBlock(runs, s);
  }

  /** When the last run is not an instruction run, the blocks are those of the
      runs before it. */
  lemma {:induction false} BlockOfShorter(runs: seq<Run>, s: Span)
    requires runs != [] && !IsInstructionRun(runs[|runs| - 1])
    ensures IsBlock(runs, s) <==> IsBlock(runs[..|runs| - 1], s)
  {
  }

  /** A last instruction run that follows a non-instruction run (or stands first)
      forms a block of its own. */
  lemma {:induction false} NewBlock(runs: seq<Run>, before: seq<Span>)
    requires runs != [] && IsInstructionRun(runs[|runs| - 1])
    requires |runs| == 1 || !IsInstructionRun(runs[|runs| - 2])
    requires forall s :: s in before <==> IsBlock(runs[..|runs| - 1], s)
    requires Separated(before)
    ensures forall s :: s in before + [Span(|runs| - 1, |runs| - 1)] <==> IsBlock(runs, s)
    ensures Separated(before + [Span(|runs| - 1, |runs| - 1)])
  {
    var n := |runs| - 1;
    var pre := runs[..n];
    var after := before + [Span(n, n)];
    forall s | s in before ensures IsBlock(runs, s) && s.end + 1 < n {
      assert IsBlock(pre, s);
    }
    forall s | IsBlock(runs, s) ensures s in after {
      if s.end < n {
        assert IsBlock(pre, s);
      } else {
        assert s.start == n;
      }
    }
    forall k1, k2 | 0 <= k1 < k2 < |after| ensures after[k1].end + 1 < after[k2].start {
      if k2 == |before| {
        assert after[k1] in before;
      }
    }
  }

  /** A last instruction run that follows an instruction run extends the block
      that ended just before it. */
  lemma {:induction false} ExtendedBlock(runs: seq<Run>, before: seq<Span>)
    requires |runs| >= 2 && IsInstructionRun(runs[|runs| - 1]) && IsInstructionRun(runs[|runs| - 2])
    requires forall s :: s in before <==> IsBlock(runs[..|runs| - 1], s)
    requires Separated(before)
    requires |before| > 0 && before[|before| - 1].end == |runs| - 2
    ensures var last := before[|before| - 1];
      forall s :: s in before[..|before| - 1] + [Span(last.start, |runs| - 1)] <==> IsBlock(runs, s)
    ensures var last := before[|before| - 1];
      Separated(before[..|before| - 1] + [Span(last.start, |runs| - 1)])
  {
    var n := |runs| - 1;
    var pre := runs[..n];
    var m := |before| - 1;
    var last := before[m];
    var kept := before[..m];
    var grown := Span(last.start, n);
    var after := kept + [grown];
    assert last in before;
    assert IsBlock(pre, last);
    forall s | s in kept ensures IsBlock(runs, s) {
      var k :| 0 <= k < m && kept[k] == s;
      assert before[k] == s;
      assert s in before;
      assert IsBlock(pre, s);
      assert s.end + 1 < last.start;
    }
    assert IsBlock(runs, grown) by {
      forall j | last.start <= j <= n ensures IsInstructionRun(runs[j]) {
        if j < n { assert pre[j] == runs[j]; }
      }
    }
    forall s | IsBlock(runs, s) ensures s in after {
      if s.end == n {
        SameBlockStart(runs, s, grown);
      } else {
        assert s.end < n - 1;
        assert IsBlock(pre, s);
        assert s in before && s != last;
        var k :| 0 <= k < |before| && before[k] == s;
        assert k < m;
        assert kept[k] == s;
      }
    }
    forall k1, k2 | 0 <= k1 < k2 < |after| ensures after[k1].end + 1 < after[k2].start {
      if k2 == m {
        assert after[k1] == before[k1];
      } else {
        assert after[k1] == before[k1] && after[k2] == before[k2];
      }
    }
  }

  /** Two blocks that end at the same run start at the same run. */
  lemma {:induction false} SameBlockStart(runs: seq<Run>, s: Span, t: Span)
    requires IsBlock(runs, s) && IsBlock(runs, t) && s.end == t.end
    ensures s == t
  {
  }

  /** One step of the scan, at a run that is not an instruction run: nothing changes. */
  lemma {:induction false} SpansStepContent(runs: seq<Run>, i: nat)
    requires i < |runs| && !IsInstructionRun(runs[i])
    ensures Spans(runs[..i + 1]) == Spans(runs[..i])
  {
    assert runs[..i + 1][..i] == runs[..i];
  }

  /** One step of the scan, at an instruction run after a non-instruction run: a new span. */
  lemma {:induction false} SpansStepOpen(runs: seq<Run>, i: nat)
    requires i < |runs| && IsInstructionRun(runs[i])
    requires i == 0 || !IsInstructionRun(runs[i - 1])
    ensures Spans(runs[..i + 1]) == Spans(runs[..i]) + [Span(i, i)]
  {
    assert runs[..i + 1][..i] == runs[..i];
  }

  /** One step of the scan, at an instruction run after an instruction run: the open
      span grows by one run. */
  lemma {:induction false} SpansStepExtend(runs: seq<Run>, i: nat, closed: seq<Span>, start: nat)
    requires 0 < i < |runs| && IsInstructionRun(runs[i]) && IsInstructionRun(runs[i - 1])
    requires Spans(runs[..i]) == closed + [Span(start, i - 1)]
    ensures Spans(runs[..i + 1]) == closed + [Span(start, i)]
  {
    assert runs[..i + 1][..i] == runs[..i];
    assert (closed + [Span(start, i - 1)])[..|closed|] == closed;
  }

  /** Adding a span within range to spans within range. */
  lemma {:induction false} AllInRangeSnoc(runs: seq<Run>, spans: seq<Span>, s: Span)
    requires AllInRange(runs, spans) && InRange(runs, s)
    ensures AllInRange(runs, spans + [s])
  {
  }

  /** Closing one more span adds its merged text to the report unless it is empty. */
  lemma {:induction false} NonEmptyTextsStep(runs: seq<Run>, closed: seq<Span>, s: Span)
    requires AllInRange(runs, closed) && InRange(runs, s) && AllInRange(runs, closed + [s])
    ensures NonEmptyTexts(runs, closed + [s])
         == NonEmptyTexts(runs, closed) + (if Merged(runs, s) == "" then [] else [Merged(runs, s)])
  {
    assert (closed + [s])[..|closed|] == closed;
  }

  /** The texts of the spans whose merged text is not empty: the scanner only
      reports an accumulated instruction when it is not the empty string. */
  function NonEmptyTexts(runs: seq<Run>, spans: seq<Span>): (r: seq<string>)
    requires AllInRange(runs, spans)
    ensures |r| <= |spans|
    ensures forall k :: 0 <= k < |r| ==> r[k] != ""
  {
    if spans == [] then []
    else
      var m := |spans| - 1;
      var t := Merged(runs, spans[m]);
      NonEmptyTexts(runs, spans[..m]) + (if t == "" then [] else [t])
  }

  /** What printProcessingInstructions reports for one paragraph: the whole text of an
      instruction paragraph, then the non-empty merged texts of its instruction spans. */
  function ParagraphInstructions(p: Paragraph): seq<string>
  {
    var spans := Spans(p.runs);
    (if IsInstructionParagraph(p) then [Text(p)] else []) + NonEmptyTexts(p.runs, spans)
  }

  /** The state of the run loop of printProcessingInstructions: the instructions reported
      so far and the instruction text merged since the last report. */
  datatype Found = Found(texts: seq<string>, inst: string)

  /** One pass of that loop: an instruction run adds its text; any other run reports the
      merged text, if there is any, and starts afresh. */
  function ScanStep(f: Found, r: Run): (g: Found)
    ensures |f.texts| <= |g.texts| <= |f.texts| + 1
  {
    if IsInstructionRun(r) then Found(f.texts, f.inst + r.text)
    else if f.inst != "" then Found(f.texts + [f.inst], "")
    else f
  }

  /** The state of that loop after its first `n` passes. */
  function ScanLoop(runs: seq<Run>, n: nat): Found
    requires n <= |runs|
  {
    if n == 0 then Found([], "") else ScanStep(ScanLoop(runs, n - 1), runs[n - 1])
  }

  /** Everything the loop reports, including the text still merged after the last run. */
  function ScanRuns(runs: seq<Run>): seq<string>
  {
    var f := ScanLoop(runs, |runs|);
    if f.inst != "" then f.texts + [f.inst] else f.texts
  }

  /** How the loop state after `n` runs stands to the spans: `closed` are the spans the
      first `n` runs have closed, their non-empty texts have been reported, and when the
      last of those runs is an instruction run the merged text is that of the open span
      starting at `start`. */
  ghost predicate ScanTracks(runs: seq<Run>, n: nat, closed: seq<Span>, start: nat, f: Found)
  {
    && n <= |runs|
    && AllInRange(runs, closed)
    && f.texts == NonEmptyTexts(runs, closed)
    && (n > 0 && IsInstructionRun(runs[n - 1]) ==>
          start < n && f.inst == RangeText(runs, start, n) && Spans(runs[..n]) == closed + [Span(start, n - 1)])
    && (!(n > 0 && IsInstructionRun(runs[n - 1])) ==> f.inst == "" && Spans(runs[..n]) == closed)
  }

  lemma {:induction false} ScanTracksOpen(runs: seq<Run>, n: nat, closed: seq<Span>, start: nat, f: Found)
    requires ScanTracks(runs, n, closed, start, f) && n < |runs| && IsInstructionRun(runs[n])
    requires !(n > 0 && IsInstructionRun(runs[n - 1]))
    ensures ScanTracks(runs, n + 1, closed, n, ScanStep(f, runs[n]))
  {
    SpansStepOpen(runs, n);
  }

  lemma {:induction false} ScanTracksExtend(runs: seq<Run>, n: nat, closed: seq<Span>, start: nat, f: Found)
    requires ScanTracks(runs, n, closed, start, f) && n < |runs| && IsInstructionRun(runs[n])
    requires n > 0 && IsInstructionRun(runs[n - 1])
    ensures ScanTracks(runs, n + 1, closed, start, ScanStep(f, runs[n]))
  {
    SpansStepExtend(runs, n, closed, start);
  }

  lemma {:induction false} ScanTracksClose(runs: seq<Run>, n: nat, closed: seq<Span>, start: nat, f: Found)
    requires ScanTracks(runs, n, closed, start, f) && n < |runs| && !IsInstructionRun(runs[n])
    requires n > 0 && IsInstructionRun(runs[n - 1])
    ensures ScanTracks(runs, n + 1, closed + [Span(start, n - 1)], start, ScanStep(f, runs[n]))
  {
    SpansStepContent(runs, n);
    AllInRangeSnoc(runs, closed, Span(start, n - 1));
    NonEmptyTextsStep(runs, closed, Span(start, n - 1));
  }

  lemma {:induction false} ScanTracksSkip(runs: seq<Run>, n: nat, closed: seq<Span>, start: nat, f: Found)
    requires ScanTracks(runs, n, closed, start, f) && n < |runs| && !IsInstructionRun(runs[n])
    requires !(n > 0 && IsInstructionRun(runs[n - 1]))
    ensures ScanTracks(runs, n + 1, closed, start, ScanStep(f, runs[n]))
  {
    SpansStepContent(runs, n);
  }

  /** After `n` runs the loop has reported the non-empty merged texts of exactly the
      spans that those runs close. */
  lemma {:induction false} ScanLoopTracks(runs: seq<Run>, n: nat) returns (closed: seq<Span>, start: nat)
    requires n <= |runs|
    ensures ScanTracks(runs, n, closed, start, ScanLoop(runs, n))
  {
    if n == 0 {
      closed, start := [], 0;
      assert runs[..0] == [];
    } else {
      var i := n - 1;
      var before, s := ScanLoopTracks(runs, i);
      var f := ScanLoop(runs, i);
      var open := i > 0 && IsInstructionRun(runs[i - 1]);
      if IsInstructionRun(runs[i]) && !open {
        ScanTracksOpen(runs, i, before, s, f);
        closed, start := before, i;
      } else if IsInstructionRun(runs[i]) {
        ScanTracksExtend(runs, i, before, s, f);
        closed, start := before, s;
      } else if open {
        ScanTracksClose(runs, i, before, s, f);
        closed, start := before + [Span(s, i - 1)], s;
      } else {
        ScanTracksSkip(runs, i, before, s, f);
        closed, start := before, s;
      }
    }
  }

  /** The loop as printProcessingInstructions writes it reports, in order, the merged text
      of every instruction span whose text is not empty. */
  lemma {:induction false} ScanRunsIsNonEmptyTexts(runs: seq<Run>)
    ensures ScanRuns(runs) == NonEmptyTexts(runs, Spans(runs))
  {
    var closed, start := ScanLoopTracks(runs, |runs|);
    assert runs[..|runs|] == runs;
    if |runs| > 0 && IsInstructionRun(runs[|runs| - 1]) {
      AllInRangeSnoc(runs, closed, Span(start, |runs| - 1));
      NonEmptyTextsStep(runs, closed, Span(start, |runs| - 1));
    }
  }

  /** The body of the paragraph loop of printProcessingInstructions, returning what it
      prints instead of printing it. */
  method ScanParagraph(p: Paragraph) returns (found: seq<string>)
    ensures found == ParagraphInstructions(p)
  {
    var runs := p.runs;
    var texts: seq<string> := [];
    var inst := "";
    var i := 0;
    while i < |runs|
      invariant i <= |runs| && Found(texts, inst) == ScanLoop(runs, i)
    {
      var r := runs[i];
      if IsInstructionRun(r) {
        inst := inst + r.text;
      } else if inst != "" {
        texts := texts + [inst];
        inst := "";
      }
      i := i + 1;
    }
    if inst != "" {
      texts := texts + [inst];
    }
    ScanRunsIsNonEmptyTexts(runs);
    found := (if IsInstructionParagraph(p) then [Text(p)] else []) + texts;
  }
}
