/** The variable pass of processVariables, paragraph by paragraph: the whole-paragraph
    lookup of an instruction paragraph, then the substitution of its instruction runs. */
module Variables {
  import opened Errors
  import opened Strings
  import opened Docs
  import opened Scanning
  import opened Substitution

  /** The paragraph-level lookup of an instruction paragraph. The membership test uses
      the trimmed text but the lookup uses the text as it is, so a paragraph whose text
      is a key only once trimmed raises KeyError. */
  function ReplaceParagraphText(p: Paragraph, vars: map<string, string>): Result<Paragraph>
  {
    var text := Text(p);
    var key := Strip(text);
    if IsInstructionParagraph(p) && key in vars then
      if text in vars then Ok(SetText(p, ReplaceAll(text, key, vars[text])))
      else Err(KeyError)
    else Ok(p)
  }

  /** The lookup raises KeyError exactly when the trimmed text is a key and the text is
      not; a paragraph it does not rewrite is kept, and one it rewrites keeps its style
      and holds a single run that is not an instruction run. */
  lemma {:induction false} ReplaceParagraphTextCases(p: Paragraph, vars: map<string, string>)
    ensures var r := ReplaceParagraphText(p, vars);
      && (r.Err? <==> IsInstructionParagraph(p) && Strip(Text(p)) in vars && Text(p) !in vars)
      && (r.Err? ==> r.error == KeyError)
      && (r.Ok? ==> r.value.style == p.style)
      && (r.Ok? && !(IsInstructionParagraph(p) && Strip(Text(p)) in vars) ==> r.value == p)
      && (r.Ok? && IsInstructionParagraph(p) && Strip(Text(p)) in vars ==>
            |r.value.runs| == 1 && !IsInstructionRun(r.value.runs[0]))
  {
    DefaultStyleIsNotMarkup();
  }

  /** One paragraph of processVariables: the paragraph-level lookup, then the run pass
      over the runs the paragraph has after it. */
  function SubstituteParagraph(p: Paragraph, vars: map<string, string>): Result<Paragraph>
  {
    var q :- ReplaceParagraphText(p, vars);
    var runs :- SubstituteRuns(q.runs, vars);
    Ok(Paragraph(q.style, runs))
  }

  /** Once the lookup has given `q`, the paragraph's result is that of the run pass on the
      runs of `q`. */
  lemma {:induction false} ParagraphAfterLookup(p: Paragraph, q: Paragraph, vars: map<string, string>)
    requires ReplaceParagraphText(p, vars) == Ok(q)
    ensures var runs := SubstituteRuns(q.runs, vars);
      SubstituteParagraph(p, vars) == if runs.Err? then Err(runs.error) else Ok(Paragraph(q.style, runs.value))
  {
  }

  /** A paragraph fails exactly in two ways: an instruction paragraph whose text is a
      key only once trimmed raises KeyError; any other paragraph whose runs are all
      instruction runs and whose trimmed text is a key raises IndexError, because there
      is no run beside the instruction to receive the value. */
  lemma {:induction false} SubstituteParagraphFails(p: Paragraph, vars: map<string, string>)
    ensures var r := SubstituteParagraph(p, vars);
      && (r.Err? <==>
            || (IsInstructionParagraph(p) && Strip(Text(p)) in vars && Text(p) !in vars)
            || (!IsInstructionParagraph(p) && Strip(Text(p)) in vars && |p.runs| > 0
                && forall j :: 0 <= j < |p.runs| ==> IsInstructionRun(p.runs[j])))
      && (r.Err? && IsInstructionParagraph(p) ==> r.error == KeyError)
      && (r.Err? && !IsInstructionParagraph(p) ==> r.error == IndexError)
  {
    if IsInstructionParagraph(p) && Strip(Text(p)) in vars {
      KeyedParagraphFails(p, vars);
    } else {
      UnkeyedParagraphFails(p, vars);
    }
  }

  /** An instruction paragraph whose trimmed text is a key either raises KeyError or is
      rewritten into a paragraph whose run pass cannot fail. */
  lemma {:induction false} KeyedParagraphFails(p: Paragraph, vars: map<string, string>)
    requires IsInstructionParagraph(p) && Strip(Text(p)) in vars
    ensures SubstituteParagraph(p, vars).Err? <==> Text(p) !in vars
    ensures SubstituteParagraph(p, vars).Err? ==> SubstituteParagraph(p, vars).error == KeyError
  {
    if Text(p) in vars {
      DefaultStyleIsNotMarkup();
      var q := ReplaceParagraphText(p, vars).value;
      SubstituteRunsPlain(q.runs, vars);
      ParagraphAfterLookup(p, q, vars);
    }
  }

  /** Any other paragraph goes to the run pass as it is, which fails only when every run
      is an instruction run and the trimmed text is a key. */
  lemma {:induction false} UnkeyedParagraphFails(p: Paragraph, vars: map<string, string>)
    requires !(IsInstructionParagraph(p) && Strip(Text(p)) in vars)
    ensures SubstituteParagraph(p, vars).Err? <==>
      Strip(Text(p)) in vars && |p.runs| > 0 && forall j :: 0 <= j < |p.runs| ==> IsInstructionRun(p.runs[j])
    ensures SubstituteParagraph(p, vars).Err? ==> SubstituteParagraph(p, vars).error == IndexError
  {
    ParagraphAfterLookup(p, p, vars);
    SubstituteRunsFails(p.runs, vars);
  }

  /** An instruction paragraph whose text is a key and has no surrounding whitespace
      ends up holding exactly the value, in one run that is not an instruction run, and
      keeps its style. */
  lemma {:induction false} SubstituteParagraphKeyed(p: Paragraph, vars: map<string, string>)
    requires IsInstructionParagraph(p) && Text(p) in vars && Strip(Text(p)) == Text(p)
    ensures SubstituteParagraph(p, vars).Ok?
    ensures var q := SubstituteParagraph(p, vars).value;
      && Text(q) == vars[Text(p)] && q.style == p.style
      && |q.runs| == 1 && !IsInstructionRun(q.runs[0])
  {
    var q := ReplaceParagraphText(p, vars).value;
    assert q == SetText(p, vars[Text(p)]);
    DefaultStyleIsNotMarkup();
    SubstituteRunsPlain(q.runs, vars);
  }

  /** Any paragraph other than an instruction paragraph with a key as its trimmed text
      keeps its style, its run count and every run style, and only run texts change. */
  lemma {:induction false} SubstituteParagraphKeepsShape(p: Paragraph, vars: map<string, string>)
    requires SubstituteParagraph(p, vars).Ok? && !(IsInstructionParagraph(p) && Strip(Text(p)) in vars)
    ensures var q := SubstituteParagraph(p, vars).value;
      && q.style == p.style && |q.runs| == |p.runs|
      && forall j :: 0 <= j < |p.runs| ==> q.runs[j].style == p.runs[j].style
  {
    SubstituteRunsKeepsStyles(p.runs, vars);
  }

  /** A paragraph with no instruction at either level is left as it is. */
  lemma {:induction false} SubstituteParagraphPlain(p: Paragraph, vars: map<string, string>)
    requires !(IsInstructionParagraph(p) && Strip(Text(p)) in vars)
    requires forall k :: 0 <= k < |Spans(p.runs)| ==> Strip(Merged(p.runs, Spans(p.runs)[k])) !in vars
    ensures SubstituteParagraph(p, vars) == Ok(p)
  {
    SubstituteRunsMiss(p.runs, vars);
  }

  /** The outcome of substituting each paragraph on its own. */
  function Outcomes(ps: seq<Paragraph>, vars: map<string, string>): (rs: seq<Result<Paragraph>>)
    ensures |rs| == |ps|
  {
    seq(|ps|, k requires 0 <= k < |ps| => SubstituteParagraph(ps[k], vars))
  }

  /** The paragraph loop of processVariables from paragraph `i` on, given what each
      paragraph's own substitution gives, after the paragraphs before `i` have become
      `done`: the first exception ends it. The paragraph count never changes. */
  function Collect(rs: seq<Result<Paragraph>>, i: nat, done: seq<Paragraph>): (r: Result<seq<Paragraph>>)
    requires i <= |rs|
    ensures r.Ok? ==> |r.value| == |done| + |rs| - i
    decreases |rs| - i
  {
    if i == |rs| then Ok(done)
    else
      var q :- rs[i];
      Collect(rs, i + 1, done + [q])
  }

  /** processVariables on a document's paragraphs. */
  function SubstituteParagraphs(ps: seq<Paragraph>, vars: map<string, string>): Result<seq<Paragraph>>
  {
    Collect(Outcomes(ps, vars), 0, [])
  }

  /** When every outcome is a paragraph, the loop gives those paragraphs. */
  lemma {:induction false} CollectAllOk(rs: seq<Result<Paragraph>>, ps: seq<Paragraph>)
    requires |rs| == |ps| && forall j :: 0 <= j < |rs| ==> rs[j] == Ok(ps[j])
    ensures Collect(rs, 0, []) == Ok(ps)
  {
    CollectAllOkFrom(rs, ps, 0);
    assert ps[..|ps|] == ps;
  }

  lemma {:induction false} CollectAllOkFrom(rs: seq<Result<Paragraph>>, ps: seq<Paragraph>, i: nat)
    requires i <= |rs| == |ps| && forall j :: 0 <= j < |rs| ==> rs[j] == Ok(ps[j])
    ensures Collect(rs, i, ps[..i]) == Ok(ps)
    decreases |rs| - i
  {
    if i == |rs| {
      assert ps[..i] == ps;
    } else {
      assert ps[..i] + [ps[i]] == ps[..i + 1];
      CollectAllOkFrom(rs, ps, i + 1);
    }
  }

  /** The first outcome that is an exception is the exception of the loop. */
  lemma {:induction false} CollectFirstErr(rs: seq<Result<Paragraph>>, i: nat)
    requires i < |rs| && rs[i].Err? && forall j :: 0 <= j < i ==> rs[j].Ok?
    ensures Collect(rs, 0, []) == Err(rs[i].error)
  {
    CollectFirstErrFrom(rs, i, 0, []);
  }

  lemma {:induction false} CollectFirstErrFrom(rs: seq<Result<Paragraph>>, i: nat, k: nat, done: seq<Paragraph>)
    requires k <= i < |rs| && rs[i].Err? && forall j :: k <= j < i ==> rs[j].Ok?
    ensures Collect(rs, k, done) == Err(rs[i].error)
    decreases i - k
  {
    if k < i {
      CollectFirstErrFrom(rs, i, k + 1, done + [rs[k].value]);
    }
  }

  /** After a loop that does not raise, the paragraphs done before it are kept and each
      later one is the value of its own outcome. */
  lemma {:induction false} CollectAt(rs: seq<Result<Paragraph>>, i: nat, done: seq<Paragraph>, k: nat)
    requires i <= |rs| && Collect(rs, i, done).Ok? && k < |done| + |rs| - i
    ensures k < |done| ==> Collect(rs, i, done).value[k] == done[k]
    ensures |done| <= k ==> var j := k - |done| + i;
      rs[j].Ok? && Collect(rs, i, done).value[k] == rs[j].value
    decreases |rs| - i
  {
    if i < |rs| {
      CollectAt(rs, i + 1, done + [rs[i].value], k);
    }
  }

  /** A later outcome that is an exception makes the loop raise. */
  lemma {:induction false} CollectRaises(rs: seq<Result<Paragraph>>, i: nat, done: seq<Paragraph>, k: nat)
    requires i <= k < |rs| && rs[k].Err?
    ensures Collect(rs, i, done).Err?
    decreases |rs| - i
  {
    if i < k && rs[i].Ok? {
      CollectRaises(rs, i + 1, done + [rs[i].value], k);
    }
  }

  /** When the loop raises, it raises the exception of one of the outcomes it had left. */
  lemma {:induction false} CollectFailure(rs: seq<Result<Paragraph>>, i: nat, done: seq<Paragraph>) returns (k: nat)
    requires i <= |rs| && Collect(rs, i, done).Err?
    ensures i <= k < |rs| && rs[k] == Err(Collect(rs, i, done).error)
    decreases |rs| - i
  {
    if rs[i].Err? {
      k := i;
    } else {
      k := CollectFailure(rs, i + 1, done + [rs[i].value]);
    }
  }

  /** After a pass that does not raise, paragraph `k` is what its own substitution gives. */
  lemma {:induction false} SubstituteParagraphsAt(ps: seq<Paragraph>, vars: map<string, string>, k: nat)
    requires k < |ps| && SubstituteParagraphs(ps, vars).Ok?
    ensures |SubstituteParagraphs(ps, vars).value| == |ps|
    ensures SubstituteParagraph(ps[k], vars).Ok?
    ensures SubstituteParagraphs(ps, vars).value[k] == SubstituteParagraph(ps[k], vars).value
  {
    CollectAt(Outcomes(ps, vars), 0, [], k);
  }

  /** A paragraph whose substitution raises makes the whole pass raise. */
  lemma {:induction false} SubstituteParagraphsRaises(ps: seq<Paragraph>, vars: map<string, string>, k: nat)
    requires k < |ps| && SubstituteParagraph(ps[k], vars).Err?
    ensures SubstituteParagraphs(ps, vars).Err?
  {
    CollectRaises(Outcomes(ps, vars), 0, [], k);
  }

  /** When the pass raises, it raises the exception of one of the paragraphs. */
  lemma {:induction false} SubstituteParagraphsFailure(ps: seq<Paragraph>, vars: map<string, string>) returns (k: nat)
    requires SubstituteParagraphs(ps, vars).Err?
    ensures k < |ps| && SubstituteParagraph(ps[k], vars) == Err(SubstituteParagraphs(ps, vars).error)
  {
    k := CollectFailure(Outcomes(ps, vars), 0, []);
  }

  /** A fresh array holding the given runs (the run list python-docx builds for `p.runs`). */
  method RunArray(runs: seq<Run>) returns (a: array<Run>)
    ensures fresh(a) && a[..] == runs
  {
    a := new Run[|runs|](j requires 0 <= j < |runs| => runs[j]);
  }

  /** The body of the paragraph loop of processVariables for one paragraph: the
      paragraph-level lookup, then the run loop, which updates the run texts in place in
      an array holding the paragraph's runs. */
  method ProcessParagraph(p: Paragraph, vars: map<string, string>) returns (res: Result<Paragraph>)
    ensures res == SubstituteParagraph(p, vars)
  {
    var looked := ReplaceParagraphText(p, vars);
    if looked.Err? {
      return Err(looked.error);
    }
    var q := looked.value;
    var runs := RunArray(q.runs);
    var outcome := ProcessRuns(runs, vars);
    ParagraphAfterLookup(p, q, vars);
    if outcome.Fail? {
      return Err(outcome.error);
    }
    res := Ok(Paragraph(q.style, runs[..]));
  }
}
