/** Variable substitution: replaceVariableRunInstruction and processVariables. */
module Substitution {
  import opened Errors
  import opened Strings
  import opened Docs
  import opened Scanning

  /** The run that receives a substituted value: the run before the span, or the
      run after it when the span starts at run 0. */
  function Host(s: Span): nat
  {
    if s.start != 0 then s.start - 1 else s.end + 1
  }

  /** A span that covers every run of the paragraph: there is no run to receive its value. */
  predicate Covers(runs: seq<Run>, s: Span)
  {
    s.start == 0 && s.end + 1 == |runs|
  }

  /** The effect of replaceVariableRunInstruction on a paragraph's runs: the value, in the
      span's own leading and trailing whitespace, is added to the end of the run before
      the span (or to the start of the run after it when the span starts at run 0), and
      every run of the span is emptied. When the span starts at run 0 and ends at the last
      run there is no run to receive the value and the index is out of range. */
  function SpliceSpan(runs: seq<Run>, s: Span, value: string): (r: Result<seq<Run>>)
    requires InRange(runs, s)
    ensures r.Err? <==> s.start == 0 && s.end == |runs| - 1
    ensures r.Err? ==> r.error == IndexError
    ensures r.Ok? ==> |r.value| == |runs|
  {
    if Covers(runs, s) then Err(IndexError)
    else Ok(Hosted(runs, s, Replacement(Merged(runs, s), value)))
  }

  /** What replaceVariableRunInstruction changes: the run count and every run style stay,
      every run of the span ends empty, the host run before the span ends with its old
      text followed by the replacement (the host run after a span at run 0 with the
      replacement followed by its old text), and no other run changes. */
  lemma {:induction false} SpliceSpanEffect(runs: seq<Run>, s: Span, value: string)
    requires InRange(runs, s) && !(s.start == 0 && s.end == |runs| - 1)
    ensures var r := SpliceSpan(runs, s, value).value;
      && |r| == |runs| && Host(s) < |runs|
      && (forall j :: 0 <= j < |runs| ==> r[j].style == runs[j].style)
      && (forall j :: s.start <= j <= s.end ==> r[j].text == "")
      && (s.start != 0 ==> r[Host(s)].text == runs[Host(s)].text + Replacement(Merged(runs, s), value))
      && (s.start == 0 ==> r[Host(s)].text == Replacement(Merged(runs, s), value) + runs[Host(s)].text)
      && (forall j :: 0 <= j < |runs| && j != Host(s) && !(s.start <= j <= s.end) ==> r[j] == runs[j])
  {
    var rep := Replacement(Merged(runs, s), value);
    HostedBlanks(runs, s, rep);
    HostedKeeps(runs, s, rep);
    HostedHost(runs, s, rep);
    HostedStyles(runs, s, rep);
  }

  /** The runs after the replacement is given to the host run and the span is emptied. */
  function Hosted(runs: seq<Run>, s: Span, replacement: string): (r: seq<Run>)
    requires InRange(runs, s) && Host(s) < |runs|
    ensures |r| == |runs|
  {
    Blank(HostGets(runs, s, replacement), s.start, s.end + 1)
  }

  /** The runs with the texts of the runs from `lo` up to (not including) `hi` emptied. */
  function Blank(runs: seq<Run>, lo: nat, hi: nat): (r: seq<Run>)
    requires hi <= |runs|
    ensures |r| == |runs|
    decreases hi - lo
  {
    if lo < hi then Blank(runs[lo := runs[lo].(text := "")], lo + 1, hi) else runs
  }

  /** Blank empties exactly the runs from `lo` up to `hi`. */
  lemma {:induction false} BlankAt(runs: seq<Run>, lo: nat, hi: nat)
    requires hi <= |runs|
    ensures forall j :: 0 <= j < |runs| ==>
      Blank(runs, lo, hi)[j] == if lo <= j < hi then runs[j].(text := "") else runs[j]
    decreases hi - lo
  {
    if lo < hi {
      BlankAt(runs[lo := runs[lo].(text := "")], lo + 1, hi);
    }
  }

  /** The runs after the host run receives the replacement, before the span is emptied. */
  function HostGets(runs: seq<Run>, s: Span, replacement: string): seq<Run>
    requires Host(s) < |runs|
  {
    var h := Host(s);
    runs[h := runs[h].(text := if s.start != 0 then runs[h].text + replacement else replacement + runs[h].text)]
  }

  lemma {:induction false} HostedUnfold(runs: seq<Run>, s: Span, replacement: string)
    requires InRange(runs, s) && Host(s) < |runs|
    ensures Hosted(runs, s, replacement) == Blank(HostGets(runs, s, replacement), s.start, s.end + 1)
  {
  }

  /** The merging loop of replaceVariableRunInstruction: the texts of runs `start` to
      `end` joined in order. */
  method MergeRuns(runs: array<Run>, start: nat, end: nat) returns (full: string)
    requires start <= end < runs.Length
    ensures full == Merged(runs[..], Span(start, end))
  {
    full := "";
    for i := start to end + 1
      invariant full == RangeText(runs[..], start, i)
    {
      full := full + runs[i].text;
    }
  }

  /** The blanking loop of replaceVariableRunInstruction: the texts of runs `lo` up to
      `hi` are emptied. */
  method BlankRuns(runs: array<Run>, lo: nat, hi: nat)
    requires lo <= hi <= runs.Length
    modifies runs
    ensures runs[..] == Blank(old(runs[..]), lo, hi)
  {
    ghost var before := runs[..];
    for j := lo to hi
      invariant Blank(runs[..], j, hi) == Blank(before, lo, hi)
    {
      runs[j] := runs[j].(text := "");
    }
  }

  /** replaceVariableRunInstruction(paragraph, start, end, value), on the paragraph's runs. */
  method ReplaceVariableRunInstruction(runs: array<Run>, start: nat, end: nat, value: string)
    returns (res: Outcome)
    requires start <= end < runs.Length
    modifies runs
    ensures var r := SpliceSpan(old(runs[..]), Span(start, end), value);
      && res == OutcomeOf(r)
      && (r.Ok? ==> runs[..] == r.value)
      && (r.Err? ==> runs[..] == old(runs[..]))
  {
    ghost var before := runs[..];
    ghost var s := Span(start, end);
    var full := MergeRuns(runs, start, end);
    var replacement := LeadingSpace(full) + value + TrailingSpace(full);
    var h;
    if start != 0 {
      h := start - 1;
      runs[h] := runs[h].(text := runs[h].text + replacement);
    } else {
      if end + 1 >= runs.Length {
        return Fail(IndexError);
      }
      h := end + 1;
      runs[h] := runs[h].(text := replacement + runs[h].text);
    }
    assert h == Host(s);
    assert runs[..] == HostGets(before, s, replacement);
    BlankRuns(runs, start, end + 1);
    HostedUnfold(before, s, replacement);
    res := Pass;
  }

  /** Substituting the spans of `spans` in order, each whose trimmed merged text is a key,
      stopping at the first one that fails. */
  function Substitute(runs: seq<Run>, spans: seq<Span>, vars: map<string, string>): (r: Result<seq<Run>>)
    requires AllInRange(runs, spans)
    ensures r.Ok? ==> |r.value| == |runs|
  {
    if spans == [] then Ok(runs)
    else
      var m := |spans| - 1;
      var done :- Substitute(runs, spans[..m], vars);
      var key := Strip(Merged(runs, spans[m]));
      if key in vars then SpliceSpan(done, spans[m], vars[key]) else Ok(done)
  }

  /** The run-level part of processVariables for one paragraph. */
  function SubstituteRuns(runs: seq<Run>, vars: map<string, string>): Result<seq<Run>>
  {
    Substitute(runs, Spans(runs), vars)
  }

  /** Substituting one more span after the ones before it. */
  lemma {:induction false} SubstituteStep(runs: seq<Run>, closed: seq<Span>, s: Span, vars: map<string, string>)
    requires AllInRange(runs, closed) && InRange(runs, s) && AllInRange(runs, closed + [s])
    ensures var prev := Substitute(runs, closed, vars);
      var key := Strip(Merged(runs, s));
      Substitute(runs, closed + [s], vars) ==
        if prev.Err? then prev
        else if key in vars then SpliceSpan(prev.value, s, vars[key])
        else prev
  {
    assert (closed + [s])[..|closed|] == closed;
  }

  /** What happens when an instruction span closes: when its trimmed merged text is a key,
      the value replaces it. */
  function CloseSpan(runs: seq<Run>, s: Span, inst: string, vars: map<string, string>): (r: Result<seq<Run>>)
    requires InRange(runs, s)
    ensures r.Ok? ==> |r.value| == |runs|
  {
    if Strip(inst) in vars then SpliceSpan(runs, s, vars[Strip(inst)]) else Ok(runs)
  }

  /** A span closed by a run after it is always substituted, and every run after the
      run that closes it stays as it was. */
  lemma {:induction false} CloseSpanKeepsTail(runs: seq<Run>, s: Span, inst: string, vars: map<string, string>)
    requires InRange(runs, s) && s.end + 1 < |runs|
    ensures CloseSpan(runs, s, inst, vars).Ok?
    ensures forall j :: s.end + 2 <= j < |runs| ==> CloseSpan(runs, s, inst, vars).value[j] == runs[j]
  {
    if Strip(inst) in vars {
      SpliceSpanEffect(runs, s, vars[Strip(inst)]);
    }
  }

  /** Closing the span from `start` to `i - 1`, whose merged text is `inst`, extends the
      substitution by one span. */
  lemma {:induction false} CloseStep(runs: seq<Run>, closed: seq<Span>, start: nat, i: nat, inst: string,
                  vars: map<string, string>, done: seq<Run>)
    requires start < i <= |runs| && |done| == |runs|
    requires AllInRange(runs, closed) && AllInRange(runs, closed + [Span(start, i - 1)])
    requires inst == RangeText(runs, start, i)
    requires Substitute(runs, closed, vars) == Ok(done)
    ensures Substitute(runs, closed + [Span(start, i - 1)], vars) == CloseSpan(done, Span(start, i - 1), inst, vars)
  {
    SubstituteStep(runs, closed, Span(start, i - 1), vars);
  }

  /** The lookup and substitution done when an instruction span closes (lines 90-91 and
      101-102). */
  method ReplaceIfKey(runs: array<Run>, start: nat, end: nat, inst: string, vars: map<string, string>)
    returns (res: Outcome)
    requires start <= end < runs.Length
    modifies runs
    ensures var r := CloseSpan(old(runs[..]), Span(start, end), inst, vars);
      && res == OutcomeOf(r)
      && (r.Ok? ==> runs[..] == r.value)
  {
    if Strip(inst) in vars {
      res := ReplaceVariableRunInstruction(runs, start, end, vars[Strip(inst)]);
    } else {
      res := Pass;
    }
  }

  /** The state of the run loop of processVariables between two runs: the runs as
      substituted so far, whether an instruction span is open (instStartRun is set), where
      it starts, and the instruction text merged so far. */
  datatype Scan = Scan(runs: seq<Run>, open: bool, start: nat, inst: string)

  /** One pass of the run loop over run `i`, which it reads from the runs as they are at
      that point: an instruction run opens or extends the span; any other run closes an
      open span and substitutes it when its trimmed text is a key. */
  function RunStep(st: Scan, i: nat, vars: map<string, string>): (r: Result<Scan>)
    requires i < |st.runs| && (st.open ==> st.start < i)
    ensures r.Ok? ==> |r.value.runs| == |st.runs| && (r.value.open ==> r.value.start <= i)
  {
    var run := st.runs[i];
    if IsInstructionRun(run) then
      Ok(Scan(st.runs, true, if st.open then st.start else i, st.inst + run.text))
    else if st.open then
      // a span closed by a later run always has a host run, so this never fails
      Ok(Scan(CloseSpan(st.runs, Span(st.start, i - 1), st.inst, vars).value, false, st.start, ""))
    else Ok(st)
  }

  /** The state of the run loop after its first `n` passes. */
  function RunLoop(runs: seq<Run>, vars: map<string, string>, n: nat): (r: Result<Scan>)
    requires n <= |runs|
    ensures r.Ok? ==> |r.value.runs| == |runs| && (r.value.open ==> r.value.start < n)
  {
    if n == 0 then Ok(Scan(runs, false, 0, ""))
    else
      var st :- RunLoop(runs, vars, n - 1);
      RunStep(st, n - 1, vars)
  }

  /** The run loop followed by the closing of a span still open at the last run. */
  function RunsAfterLoop(runs: seq<Run>, vars: map<string, string>): Result<seq<Run>>
  {
    var st :- RunLoop(runs, vars, |runs|);
    if st.open then CloseSpan(st.runs, Span(st.start, |runs| - 1), st.inst, vars) else Ok(st.runs)
  }

  /** How a state of the run loop after `n` runs stands to the spans: the spans closed so
      far are `closed`, they have been substituted, the runs from `n` on are untouched,
      and an open span is the last span of the first `n` runs, with its text merged. */
  ghost predicate Tracks(runs: seq<Run>, vars: map<string, string>, n: nat, closed: seq<Span>, st: Scan)
  {
    && n <= |runs| && |st.runs| == |runs|
    && AllInRange(runs, closed)
    && (st.open <==> n > 0 && IsInstructionRun(runs[n - 1]))
    && (forall j :: n <= j < |runs| ==> st.runs[j] == runs[j])
    && Substitute(runs, closed, vars) == Ok(st.runs)
    && (st.open ==> st.start < n && st.inst == RangeText(runs, st.start, n)
                    && Spans(runs[..n]) == closed + [Span(st.start, n - 1)])
    && (!st.open ==> st.inst == "" && Spans(runs[..n]) == closed)
  }

  /** An instruction run after a run that is not one opens a span. */
  lemma {:induction false} TracksOpen(runs: seq<Run>, vars: map<string, string>, n: nat, closed: seq<Span>, st: Scan)
    requires Tracks(runs, vars, n, closed, st) && n < |runs|
    requires IsInstructionRun(runs[n]) && !st.open
    ensures RunStep(st, n, vars).Ok? && Tracks(runs, vars, n + 1, closed, RunStep(st, n, vars).value)
  {
    SpansStepOpen(runs, n);
  }

  /** An instruction run after an instruction run extends the open span. */
  lemma {:induction false} TracksExtend(runs: seq<Run>, vars: map<string, string>, n: nat, closed: seq<Span>, st: Scan)
    requires Tracks(runs, vars, n, closed, st) && n < |runs|
    requires IsInstructionRun(runs[n]) && st.open
    ensures RunStep(st, n, vars).Ok? && Tracks(runs, vars, n + 1, closed, RunStep(st, n, vars).value)
  {
    SpansStepExtend(runs, n, closed, st.start);
  }

  /** A run that is not an instruction run closes the open span, which is substituted
      without fail because this run is there to receive the value. */
  lemma {:induction false} TracksClose(runs: seq<Run>, vars: map<string, string>, n: nat, closed: seq<Span>, st: Scan)
    requires Tracks(runs, vars, n, closed, st) && n < |runs|
    requires !IsInstructionRun(runs[n]) && st.open
    ensures RunStep(st, n, vars).Ok?
    ensures Tracks(runs, vars, n + 1, closed + [Span(st.start, n - 1)], RunStep(st, n, vars).value)
  {
    var span := Span(st.start, n - 1);
    SpansStepContent(runs, n);
    AllInRangeSnoc(runs, closed, span);
    CloseStep(runs, closed, st.start, n, st.inst, vars, st.runs);
    CloseSpanKeepsTail(st.runs, span, st.inst, vars);
  }

  /** A run that is not an instruction run, with no span open, changes nothing. */
  lemma {:induction false} TracksSkip(runs: seq<Run>, vars: map<string, string>, n: nat, closed: seq<Span>, st: Scan)
    requires Tracks(runs, vars, n, closed, st) && n < |runs|
    requires !IsInstructionRun(runs[n]) && !st.open
    ensures RunStep(st, n, vars).Ok? && Tracks(runs, vars, n + 1, closed, RunStep(st, n, vars).value)
  {
    SpansStepContent(runs, n);
  }

  /** One pass of the run loop keeps the loop state in step with the spans. */
  lemma {:induction false} TracksStep(runs: seq<Run>, vars: map<string, string>, n: nat, closed: seq<Span>, st: Scan)
    returns (next: seq<Span>)
    requires Tracks(runs, vars, n, closed, st) && n < |runs|
    ensures RunStep(st, n, vars).Ok? && Tracks(runs, vars, n + 1, next, RunStep(st, n, vars).value)
  {
    assert st.runs[n] == runs[n];
    if IsInstructionRun(runs[n]) && !st.open {
      TracksOpen(runs, vars, n, closed, st);
      next := closed;
    } else if IsInstructionRun(runs[n]) {
      TracksExtend(runs, vars, n, closed, st);
      next := closed;
    } else if st.open {
      TracksClose(runs, vars, n, closed, st);
      next := closed + [Span(st.start, n - 1)];
    } else {
      TracksSkip(runs, vars, n, closed, st);
      next := closed;
    }
  }

  /** The run loop never fails, and after `n` runs it has substituted exactly the spans
      that the first `n` runs close. */
  lemma {:induction false} RunLoopTracks(runs: seq<Run>, vars: map<string, string>, n: nat)
    returns (closed: seq<Span>)
    requires n <= |runs|
    ensures RunLoop(runs, vars, n).Ok? && Tracks(runs, vars, n, closed, RunLoop(runs, vars, n).value)
  {
    if n == 0 {
      closed := [];
      assert runs[..0] == [];
    } else {
      var before := RunLoopTracks(runs, vars, n - 1);
      closed := TracksStep(runs, vars, n - 1, before, RunLoop(runs, vars, n - 1).value);
    }
  }

  /** The run loop as processVariables writes it computes the substitution of every
      instruction span in order: the loop-based and the span-based descriptions agree. */
  lemma {:induction false} RunsAfterLoopIsSubstitute(runs: seq<Run>, vars: map<string, string>)
    ensures RunsAfterLoop(runs, vars) == SubstituteRuns(runs, vars)
  {
    var closed := RunLoopTracks(runs, vars, |runs|);
    var st := RunLoop(runs, vars, |runs|).value;
    assert runs[..|runs|] == runs;
    if st.open {
      AllInRangeSnoc(runs, closed, Span(st.start, |runs| - 1));
      CloseStep(runs, closed, st.start, |runs|, st.inst, vars, st.runs);
    }
  }

  /** A span closed before the last run always finds a run to receive its value. */
  lemma {:induction false} CloseSpanOk(runs: seq<Run>, s: Span, inst: string, vars: map<string, string>)
    requires InRange(runs, s) && s.end + 1 < |runs|
    ensures CloseSpan(runs, s, inst, vars).Ok?
  {
  }

  /** The run loop of processVariables (lines 75-102): merge adjacent instruction runs,
      and substitute each merged instruction whose trimmed text is a key. */
  method ProcessRuns(runs: array<Run>, vars: map<string, string>) returns (res: Outcome)
    modifies runs
    ensures var r := SubstituteRuns(old(runs[..]), vars);
      res == OutcomeOf(r) && (r.Ok? ==> runs[..] == r.value)
  {
    ghost var orig := runs[..];
    var inst := "";
    var open := false;
    var instStart: nat := 0;
    var i := 0;
    while i < runs.Length
      invariant i <= runs.Length == |orig|
      invariant RunLoop(orig, vars, i) == Ok(Scan(runs[..], open, instStart, inst))
    {
      var r := runs[i];
      if IsInstructionRun(r) {
        if !open {
          instStart := i;
        }
        inst := inst + r.text;
        open := true;
      } else if open {
        CloseSpanOk(runs[..], Span(instStart, i - 1), inst, vars);
        var outcome := ReplaceIfKey(runs, instStart, i - 1, inst, vars);
        assert outcome == Pass;
        inst := "";
        open := false;
      }
      i := i + 1;
    }
    RunsAfterLoopIsSubstitute(orig, vars);
    if open {
      res := ReplaceIfKey(runs, instStart, i - 1, inst, vars);
    } else {
      res := Pass;
    }
  }

  /** The runs of the span have no text left after the splice. */
  lemma {:induction false} HostedBlanks(runs: seq<Run>, s: Span, rep: string)
    requires InRange(runs, s) && Host(s) < |runs|
    ensures forall j :: s.start <= j <= s.end ==> Hosted(runs, s, rep)[j].text == ""
  {
    HostedUnfold(runs, s, rep);
    BlankAt(HostGets(runs, s, rep), s.start, s.end + 1);
  }

  /** Runs other than those of the span and the host run keep their text. */
  lemma {:induction false} HostedKeeps(runs: seq<Run>, s: Span, rep: string)
    requires InRange(runs, s) && Host(s) < |runs|
    ensures forall j :: 0 <= j < |runs| && j != Host(s) && !(s.start <= j <= s.end) ==>
      Hosted(runs, s, rep)[j] == runs[j]
  {
    HostedUnfold(runs, s, rep);
    BlankAt(HostGets(runs, s, rep), s.start, s.end + 1);
  }

  /** Every run keeps its style. */
  lemma {:induction false} HostedStyles(runs: seq<Run>, s: Span, rep: string)
    requires InRange(runs, s) && Host(s) < |runs|
    ensures forall j :: 0 <= j < |runs| ==> Hosted(runs, s, rep)[j].style == runs[j].style
  {
    HostedUnfold(runs, s, rep);
    BlankAt(HostGets(runs, s, rep), s.start, s.end + 1);
  }

  /** The host run receives `rep`: after its text when it precedes the span, before it
      when it follows. */
  lemma {:induction false} HostedHost(runs: seq<Run>, s: Span, rep: string)
    requires InRange(runs, s) && Host(s) < |runs|
    ensures var t := Hosted(runs, s, rep)[Host(s)].text;
      t == if s.start != 0 then runs[Host(s)].text + rep else rep + runs[Host(s)].text
  {
    HostedUnfold(runs, s, rep);
    BlankAt(HostGets(runs, s, rep), s.start, s.end + 1);
  }

  lemma {:induction false} HostedBlankText(runs: seq<Run>, s: Span, rep: string)
    requires InRange(runs, s) && Host(s) < |runs|
    ensures RangeText(Hosted(runs, s, rep), s.start, s.end + 1) == ""
  {
    HostedBlanks(runs, s, rep);
    RangeTextOfEmpty(Hosted(runs, s, rep), s.start, s.end + 1);
  }

  lemma {:induction false} HostedKeptText(runs: seq<Run>, s: Span, rep: string, lo: nat, hi: nat)
    requires InRange(runs, s) && Host(s) < |runs| && lo <= hi <= |runs|
    requires hi < s.start || lo > s.end + 1 || (s.start != 0 && lo > s.end)
    ensures RangeText(Hosted(runs, s, rep), lo, hi) == RangeText(runs, lo, hi)
  {
    HostedKeeps(runs, s, rep);
    RangeTextAgree(Hosted(runs, s, rep), runs, lo, hi);
  }

  /** The text of runs `r` obtained from `runs` by appending `rep` to the run before the
      span and emptying the span. */
  lemma {:induction false} SplicedTextBefore(runs: seq<Run>, r: seq<Run>, s: Span, rep: string)
    requires 0 < s.start <= s.end < |runs| == |r|
    requires RangeText(r, s.start, s.end + 1) == ""
    requires RangeText(r, 0, s.start - 1) == RangeText(runs, 0, s.start - 1)
    requires RangeText(r, s.end + 1, |runs|) == RangeText(runs, s.end + 1, |runs|)
    requires r[s.start - 1].text == runs[s.start - 1].text + rep
    ensures Concat(r) == RangeText(runs, 0, s.start) + rep + RangeText(runs, s.end + 1, |runs|)
  {
    var n, h, a, b := |runs|, s.start - 1, s.start, s.end + 1;
    var pre, after := RangeText(runs, 0, h), RangeText(runs, b, n);
    RangeTextSplit(r, a, b, n);
    RangeTextSplit(r, h, a, n);
    RangeTextSplit(r, 0, h, n);
    ConcatAssoc(runs[h].text, rep, after);
    ConcatAssoc(pre, runs[h].text, rep + after);
    ConcatAssoc(pre + runs[h].text, rep, after);
  }

  /** The text of runs `r` obtained from `runs` by emptying a span that starts at run 0
      and prepending `rep` to the run after it. */
  lemma {:induction false} SplicedTextAfter(runs: seq<Run>, r: seq<Run>, s: Span, rep: string)
    requires s.start == 0 && s.end + 1 < |runs| == |r|
    requires RangeText(r, 0, s.end + 1) == ""
    requires RangeText(r, s.end + 2, |runs|) == RangeText(runs, s.end + 2, |runs|)
    requires r[s.end + 1].text == rep + runs[s.end + 1].text
    ensures Concat(r) == rep + RangeText(runs, s.end + 1, |runs|)
  {
    var n, b := |runs|, s.end + 1;
    var after := RangeText(runs, b + 1, n);
    RangeTextSplit(r, 0, b, n);
    RangeTextSplit(r, b, b + 1, n);
    RangeTextSplit(runs, b, b + 1, n);
    RangeTextOne(r, b);
    RangeTextOne(runs, b);
    assert Concat(r) == r[b].text + after;
    ConcatAssoc(rep, runs[b].text, after);
  }

  lemma RangeTextOne(runs: seq<Run>, k: nat)
    requires k < |runs|
    ensures RangeText(runs, k, k + 1) == runs[k].text
  {
    assert RangeText(runs, k, k + 1) == "" + runs[k].text;
  }

  /** The text after giving `rep` to the host run and emptying the span: the span's text
      is replaced by `rep`. */
  lemma {:induction false} HostedText(runs: seq<Run>, s: Span, rep: string)
    requires InRange(runs, s) && Host(s) < |runs|
    ensures Concat(Hosted(runs, s, rep)) == RangeText(runs, 0, s.start) + rep + RangeText(runs, s.end + 1, |runs|)
  {
    HostedBlankText(runs, s, rep);
    HostedHost(runs, s, rep);
    if s.start != 0 {
      HostedKeptText(runs, s, rep, 0, s.start - 1);
      HostedKeptText(runs, s, rep, s.end + 1, |runs|);
      var r := Hosted(runs, s, rep);
      assert A: 0 < s.start <= s.end < |runs| == |r|;
      assert B: RangeText(r, s.start, s.end + 1) == "";
      assert C: RangeText(r, 0, s.start - 1) == RangeText(runs, 0, s.start - 1);
      assert D: RangeText(r, s.end + 1, |runs|) == RangeText(runs, s.end + 1, |runs|);
      assert E: r[s.start - 1].text == runs[s.start - 1].text + rep;
      SplicedTextBefore(runs, Hosted(runs, s, rep), s, rep);
    } else {
      HostedKeptText(runs, s, rep, s.end + 2, |runs|);
      SplicedTextAfter(runs, Hosted(runs, s, rep), s, rep);
    }
  }

  /** What replaceVariableRunInstruction does to the paragraph's text: the span's merged
      text is replaced by the value wrapped in that text's own leading and trailing
      whitespace, and the text before and after the span is kept. */
  lemma {:induction false} SpliceSpanText(runs: seq<Run>, s: Span, value: string)
    requires InRange(runs, s) && !Covers(runs, s)
    ensures Concat(SpliceSpan(runs, s, value).value)
         == RangeText(runs, 0, s.start) + Replacement(Merged(runs, s), value) + RangeText(runs, s.end + 1, |runs|)
  {
    HostedText(runs, s, Replacement(Merged(runs, s), value));
  }

  /** When the span's text is not all whitespace, the paragraph's text changes from
      `before + lead + key + trail + after` to `before + lead + value + trail + after`,
      where `key` is the trimmed instruction: the value takes the key's place. */
  lemma {:induction false} SpliceSpanReplacesKey(runs: seq<Run>, s: Span, value: string)
    requires InRange(runs, s) && !Covers(runs, s) && !AllSpace(Merged(runs, s))
    ensures var m := Merged(runs, s);
      var before, after := RangeText(runs, 0, s.start), RangeText(runs, s.end + 1, |runs|);
      && Concat(runs) == before + (LeadingSpace(m) + Strip(m) + TrailingSpace(m)) + after
      && Concat(SpliceSpan(runs, s, value).value) == before + (LeadingSpace(m) + value + TrailingSpace(m)) + after
  {
    var m := Merged(runs, s);
    SpliceSpanText(runs, s, value);
    StripDecomposition(m);
    TextAroundSpan(runs, s);
  }

  /** The text of the runs is the text before the span, the span's text and the text
      after it. */
  lemma {:induction false} TextAroundSpan(runs: seq<Run>, s: Span)
    requires InRange(runs, s)
    ensures Concat(runs) == RangeText(runs, 0, s.start) + Merged(runs, s) + RangeText(runs, s.end + 1, |runs|)
  {
    RangeTextSplit(runs, 0, s.start, |runs|);
    RangeTextSplit(runs, s.start, s.end + 1, |runs|);
    ConcatAssoc(RangeText(runs, 0, s.start), Merged(runs, s), RangeText(runs, s.end + 1, |runs|));
  }

  /** Some span of `spans` covers every run and has a key as its trimmed text. */
  ghost predicate CoveringKey(runs: seq<Run>, spans: seq<Span>, vars: map<string, string>)
    requires AllInRange(runs, spans)
  {
    exists k :: 0 <= k < |spans| && Covers(runs, spans[k]) && Strip(Merged(runs, spans[k])) in vars
  }

  lemma {:induction false} CoveringKeySnoc(runs: seq<Run>, spans: seq<Span>, s: Span, vars: map<string, string>)
    requires AllInRange(runs, spans) && InRange(runs, s) && AllInRange(runs, spans + [s])
    ensures CoveringKey(runs, spans + [s], vars) <==>
      CoveringKey(runs, spans, vars) || (Covers(runs, s) && Strip(Merged(runs, s)) in vars)
  {
    var t := spans + [s];
    if CoveringKey(runs, t, vars) {
      var k :| 0 <= k < |t| && Covers(runs, t[k]) && Strip(Merged(runs, t[k])) in vars;
      if k < |spans| {
        assert t[k] == spans[k];
      }
    }
    if CoveringKey(runs, spans, vars) {
      var k :| 0 <= k < |spans| && Covers(runs, spans[k]) && Strip(Merged(runs, spans[k])) in vars;
      assert t[k] == spans[k];
    }
    if Covers(runs, s) && Strip(Merged(runs, s)) in vars {
      assert t[|spans|] == s;
    }
  }

  /** Substituting spans fails exactly when a span covering every run has a key as its
      trimmed text, and the failure is the IndexError of the missing host run. */
  lemma {:induction false} SubstituteFails(runs: seq<Run>, spans: seq<Span>, vars: map<string, string>)
    requires AllInRange(runs, spans)
    ensures Substitute(runs, spans, vars).Err? <==> CoveringKey(runs, spans, vars)
    ensures Substitute(runs, spans, vars).Err? ==> Substitute(runs, spans, vars).error == IndexError
  {
    if spans != [] {
      var m := |spans| - 1;
      var pre, s := spans[..m], spans[m];
      assert spans == pre + [s];
      assert AllInRange(runs, pre) by {
        forall k | 0 <= k < |pre| ensures InRange(runs, pre[k]) {
          assert pre[k] == spans[k];
        }
      }
      SubstituteFails(runs, pre, vars);
      SubstituteStep(runs, pre, s, vars);
      CoveringKeySnoc(runs, pre, s, vars);
    }
  }

  /** The run pass of a paragraph fails exactly when all of its runs are instruction runs
      and its trimmed text is a key: that is the one instruction with no run beside it. */
  lemma {:induction false} SubstituteRunsFails(runs: seq<Run>, vars: map<string, string>)
    ensures SubstituteRuns(runs, vars).Err? <==>
      && |runs| > 0
      && (forall j :: 0 <= j < |runs| ==> IsInstructionRun(runs[j]))
      && Strip(Concat(runs)) in vars
    ensures SubstituteRuns(runs, vars).Err? ==> SubstituteRuns(runs, vars).error == IndexError
  {
    SubstituteFails(runs, Spans(runs), vars);
    if CoveringKey(runs, Spans(runs), vars) {
      CoveringSpanIsWhole(runs, vars);
    }
    if |runs| > 0 && (forall j :: 0 <= j < |runs| ==> IsInstructionRun(runs[j])) && Strip(Concat(runs)) in vars {
      WholeIsCovering(runs, vars);
    }
  }

  /** A span found by the scan that covers every run means every run is an instruction run. */
  lemma {:induction false} CoveringSpanIsWhole(runs: seq<Run>, vars: map<string, string>)
    requires CoveringKey(runs, Spans(runs), vars)
    ensures |runs| > 0 && (forall j :: 0 <= j < |runs| ==> IsInstructionRun(runs[j]))
    ensures Strip(Concat(runs)) in vars
  {
    var spans := Spans(runs);
    var k :| 0 <= k < |spans| && Covers(runs, spans[k]) && Strip(Merged(runs, spans[k])) in vars;
    SpansAreMaximalBlocks(runs);
    assert spans[k] in spans;
  }

  /** When every run is an instruction run, the scan finds the span of all of them. */
  lemma {:induction false} WholeIsCovering(runs: seq<Run>, vars: map<string, string>)
    requires |runs| > 0 && (forall j :: 0 <= j < |runs| ==> IsInstructionRun(runs[j]))
    requires Strip(Concat(runs)) in vars
    ensures CoveringKey(runs, Spans(runs), vars)
  {
    var spans := Spans(runs);
    var whole := Span(0, |runs| - 1);
    SpansAreMaximalBlocks(runs);
    assert IsBlock(runs, whole);
    var k :| 0 <= k < |spans| && spans[k] == whole;
    assert Covers(runs, spans[k]);
  }

  /** Spans whose trimmed texts are none of them keys leave the runs as they are. */
  lemma {:induction false} SubstituteMiss(runs: seq<Run>, spans: seq<Span>, vars: map<string, string>)
    requires AllInRange(runs, spans)
    requires forall k :: 0 <= k < |spans| ==> Strip(Merged(runs, spans[k])) !in vars
    ensures Substitute(runs, spans, vars) == Ok(runs)
  {
    if spans != [] {
      var m := |spans| - 1;
      assert forall k :: 0 <= k < m ==> spans[..m][k] == spans[k];
      SubstituteMiss(runs, spans[..m], vars);
    }
  }

  /** A paragraph whose instructions are none of them keys is left as it is by the run pass. */
  lemma {:induction false} SubstituteRunsMiss(runs: seq<Run>, vars: map<string, string>)
    requires forall k :: 0 <= k < |Spans(runs)| ==> Strip(Merged(runs, Spans(runs)[k])) !in vars
    ensures SubstituteRuns(runs, vars) == Ok(runs)
  {
    SubstituteMiss(runs, Spans(runs), vars);
  }

  /** A paragraph without instruction runs is left as it is by the run pass. */
  lemma {:induction false} SubstituteRunsPlain(runs: seq<Run>, vars: map<string, string>)
    requires forall j :: 0 <= j < |runs| ==> !IsInstructionRun(runs[j])
    ensures SubstituteRuns(runs, vars) == Ok(runs)
  {
    if Spans(runs) != [] {
      SpanStartsAtInstruction(runs, 0);
      assert false;
    }
  }

  /** The run that receives a span's value is never an instruction run: it lies just
      outside a maximal block of instruction runs. */
  lemma {:induction false} HostIsNotInstruction(runs: seq<Run>, k: nat)
    requires k < |Spans(runs)| && Host(Spans(runs)[k]) < |runs|
    ensures !IsInstructionRun(runs[Host(Spans(runs)[k])])
  {
    var s := Spans(runs)[k];
    SpansAreMaximalBlocks(runs);
    assert s in Spans(runs);
    assert IsBlock(runs, s);
  }

  /** Substituting spans never changes the style of a run. */
  lemma {:induction false} SubstituteKeepsStyles(runs: seq<Run>, spans: seq<Span>, vars: map<string, string>)
    requires AllInRange(runs, spans) && Substitute(runs, spans, vars).Ok?
    ensures forall j :: 0 <= j < |runs| ==> Substitute(runs, spans, vars).value[j].style == runs[j].style
  {
    if spans != [] {
      var m := |spans| - 1;
      assert forall k :: 0 <= k < m ==> spans[..m][k] == spans[k];
      SubstituteKeepsStyles(runs, spans[..m], vars);
      var done := Substitute(runs, spans[..m], vars).value;
      var key := Strip(Merged(runs, spans[m]));
      if key in vars {
        SpliceSpanEffect(done, spans[m], vars[key]);
      }
    }
  }

  /** The run pass keeps the run count and every run style of a paragraph. */
  lemma {:induction false} SubstituteRunsKeepsStyles(runs: seq<Run>, vars: map<string, string>)
    requires SubstituteRuns(runs, vars).Ok?
    ensures |SubstituteRuns(runs, vars).value| == |runs|
    ensures forall j :: 0 <= j < |runs| ==> SubstituteRuns(runs, vars).value[j].style == runs[j].style
  {
    SubstituteKeepsStyles(runs, Spans(runs), vars);
  }
}
