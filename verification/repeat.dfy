/** The repeat pass (processRepeatParagraphs). The outer loop runs over the paragraphs as
    they were when it started. For an instruction paragraph of the form "repeat_<count>"
    at index `i` of that list, the current list is searched from index `i + 1` for the
    last instruction paragraph starting with "end". One paragraph with the text
    "Inserted paragraph" is then inserted one place after the end index held. Once earlier
    openers have inserted paragraphs, index `i + 1` may lie before the opener, and a
    search that finds no terminator keeps the end index an earlier opener left. */
module Repeat {
  import opened Errors
  import opened Strings
  import opened Docs

  datatype Option<T> = None | Some(value: T)

  const OpenerPrefix := "repeat_"
  const TerminatorPrefix := "end"

  /** An instruction paragraph whose trimmed text starts with "repeat_". */
  predicate IsOpener(p: Paragraph)
  {
    IsInstructionParagraph(p) && StartsWith(Strip(Text(p)), OpenerPrefix)
  }

  /** An instruction paragraph whose trimmed text starts with "end". */
  predicate IsTerminator(p: Paragraph)
  {
    IsInstructionParagraph(p) && StartsWith(Strip(Text(p)), TerminatorPrefix)
  }

  /** The repeat count of an opener: int() of its trimmed text after the 7-character
      prefix, which raises ValueError when that is not an integer. */
  function RepeatCount(p: Paragraph): (r: Result<int>)
    requires IsOpener(p)
    ensures r.Err? ==> r.error == ValueError
  {
    var instruction := Strip(Text(p));
    ParseInt(instruction[|OpenerPrefix|..])
  }

  /** The index of the last terminator among paragraphs `lo` up to (not including) `hi`. */
  function LastTerminator(ps: seq<Paragraph>, lo: nat, hi: nat): (r: Option<nat>)
    requires lo <= hi <= |ps|
    ensures r.Some? ==> lo <= r.value < hi
    decreases hi
  {
    if hi == lo then None
    else if IsTerminator(ps[hi - 1]) then Some(hi - 1)
    else LastTerminator(ps, lo, hi - 1)
  }

  /** LastTerminator finds a terminator with none after it, or there is none at all. */
  lemma {:induction false} LastTerminatorIsLast(ps: seq<Paragraph>, lo: nat, hi: nat)
    requires lo <= hi <= |ps|
    ensures var r := LastTerminator(ps, lo, hi);
      && (r.Some? ==> IsTerminator(ps[r.value]) && forall j :: r.value < j < hi ==> !IsTerminator(ps[j]))
      && (r.None? ==> forall j :: lo <= j < hi ==> !IsTerminator(ps[j]))
    decreases hi
  {
    if hi > lo && !IsTerminator(ps[hi - 1]) {
      LastTerminatorIsLast(ps, lo, hi - 1);
    }
  }

  /** repeat_end_paragraph after the search loop that starts at paragraph `start`: one
      before the last terminator it meets, or the value it had before the loop (which
      may be unbound) when it meets none. */
  function EndAfterSearch(ps: seq<Paragraph>, start: nat, previous: Option<nat>): Option<nat>
    requires 0 < start
  {
    if start >= |ps| then previous else EndOfSearched(ps, start, |ps|, previous)
  }

  /** The search loop of processRepeatParagraphs (lines 137-145): it does not stop at the
      first terminator, so the last one wins. */
  method FindEnd(ps: seq<Paragraph>, start: nat, previous: Option<nat>) returns (end: Option<nat>)
    requires 0 < start
    ensures end == EndAfterSearch(ps, start, previous)
  {
    end := previous;
    if start < |ps| {
      for j := start to |ps|
        invariant end == EndOfSearched(ps, start, j, previous)
      {
        var par := ps[j];
        if IsInstructionParagraph(par) {
          var instruction := Strip(Text(par));
          if StartsWith(instruction, TerminatorPrefix) {
            end := Some(j - 1);
          }
        }
      }
    }
  }

  /** repeat_end_paragraph after the search loop has looked at paragraphs `start` up to
      (not including) `j`. */
  function EndOfSearched(ps: seq<Paragraph>, start: nat, j: nat, previous: Option<nat>): Option<nat>
    requires 0 < start <= j <= |ps|
  {
    match LastTerminator(ps, start, j)
    case Some(t) => Some(t - 1)
    case None => previous
  }

  /** The paragraphs with the inserted paragraph placed at index `e`, before the
      paragraph that was there. */
  function Insert(ps: seq<Paragraph>, e: nat): seq<Paragraph>
    requires e <= |ps|
  {
    ps[..e] + [InsertedParagraph] + ps[e..]
  }

  /** Inserting keeps every paragraph, in order, and adds the inserted one at `e`. */
  lemma {:induction false} InsertPlaces(ps: seq<Paragraph>, e: nat)
    requires e <= |ps|
    ensures var r := Insert(ps, e);
      && |r| == |ps| + 1 && r[e] == InsertedParagraph
      && (forall j :: 0 <= j < e ==> r[j] == ps[j])
      && (forall j :: e <= j < |ps| ==> r[j + 1] == ps[j])
      && multiset(r) == multiset(ps) + multiset{InsertedParagraph}
  {
    assert ps == ps[..e] + ps[e..];
  }

  /** The state of processRepeatParagraphs between two paragraphs of its snapshot: the
      live paragraph list, and repeat_end_paragraph, which is unbound until the first
      search that meets a terminator. */
  datatype State = State(paragraphs: seq<Paragraph>, end: Option<nat>)

  /** One pass of the outer loop over paragraph `i` of the snapshot, `p`. The indices it
      computes are used on the live list, which may have grown since the snapshot. */
  function RepeatStep(st: State, p: Paragraph, i: nat): Result<State>
  {
    if !IsOpener(p) then Ok(st)
    else if RepeatCount(p).Err? then Err(RepeatCount(p).error)
    else
      var ps := st.paragraphs;
      var end := EndAfterSearch(ps, i + 1, st.end);
      if i + 1 >= |ps| then Err(IndexError)
      else if end.None? then Err(UnboundLocalError)
      else if end.value + 1 >= |ps| then Err(IndexError)
      else Ok(State(Insert(ps, end.value + 1), end))
  }

  /** The outer loop from paragraph `i` of the snapshot on, starting in state `st`; an
      exception in any pass ends it. */
  function RepeatFrom(snapshot: seq<Paragraph>, i: nat, st: State): Result<State>
    requires i <= |snapshot|
    decreases |snapshot| - i
  {
    if i == |snapshot| then Ok(st)
    else
      var next :- RepeatStep(st, snapshot[i], i);
      RepeatFrom(snapshot, i + 1, next)
  }

  /** The state before the outer loop: the document's paragraphs, and repeat_end_paragraph
      unbound. */
  function Start(ps: seq<Paragraph>): State
  {
    State(ps, None)
  }

  /** processRepeatParagraphs on a document's paragraphs, iterating over a snapshot of
      them taken before the loop. */
  function RepeatParagraphs(ps: seq<Paragraph>): Result<seq<Paragraph>>
  {
    var st :- RepeatFrom(ps, 0, Start(ps));
    Ok(st.paragraphs)
  }

  /** The number of openers among the first `n` paragraphs. */
  function OpenerCount(ps: seq<Paragraph>, n: nat): nat
    requires n <= |ps|
  {
    if n == 0 then 0 else OpenerCount(ps, n - 1) + (if IsOpener(ps[n - 1]) then 1 else 0)
  }

  /** `c` copies of paragraph `p`. */
  function Copies(p: Paragraph, c: nat): multiset<Paragraph>
  {
    if c == 0 then multiset{} else Copies(p, c - 1) + multiset{p}
  }

  /** What the outer loop keeps once it has met `c` openers of the snapshot: each has
      added exactly one inserted paragraph and nothing else; repeat_end_paragraph, once
      bound, always indexes a paragraph before the last one, so reading the paragraph
      after it never fails; and while it is unbound no opener has been met and the list
      is the snapshot. */
  ghost predicate Grown(snapshot: seq<Paragraph>, c: nat, st: State)
  {
    && |st.paragraphs| == |snapshot| + c
    && multiset(st.paragraphs) == multiset(snapshot) + Copies(InsertedParagraph, c)
    && (st.end.Some? ==> st.end.value + 1 < |st.paragraphs|)
    && (st.end.None? ==> c == 0 && st.paragraphs == snapshot)
  }

  /** Inserting before a bound index keeps Grown, with one more opener met. */
  lemma {:induction false} InsertGrows(snapshot: seq<Paragraph>, c: nat, ps: seq<Paragraph>, previous: Option<nat>, e: nat)
    requires Grown(snapshot, c, State(ps, previous)) && e + 1 < |ps|
    ensures Grown(snapshot, c + 1, State(Insert(ps, e + 1), Some(e)))
  {
    InsertPlaces(ps, e + 1);
  }

  /** A pass over an opener that does not raise inserts one paragraph and binds
      repeat_end_paragraph to one before its index. */
  lemma {:induction false} OpenerStepInserts(st: State, p: Paragraph, i: nat) returns (e: nat)
    requires IsOpener(p) && RepeatStep(st, p, i).Ok?
    ensures EndAfterSearch(st.paragraphs, i + 1, st.end) == Some(e) && e + 1 < |st.paragraphs|
    ensures RepeatStep(st, p, i) == Ok(State(Insert(st.paragraphs, e + 1), Some(e)))
  {
    e := EndAfterSearch(st.paragraphs, i + 1, st.end).value;
  }

  /** The pass over a paragraph that is not an opener changes nothing and meets no
      opener. */
  lemma {:induction false} PlainStep(snapshot: seq<Paragraph>, i: nat, st: State)
    requires i < |snapshot| && !IsOpener(snapshot[i])
    ensures RepeatStep(st, snapshot[i], i) == Ok(st)
    ensures OpenerCount(snapshot, i + 1) == OpenerCount(snapshot, i)
  {
  }

  /** The pass over an opener that does not raise meets one more opener and inserts one
      paragraph. */
  lemma {:induction false} OpenerKeepsInvariant(snapshot: seq<Paragraph>, i: nat, st: State)
    requires i < |snapshot| && IsOpener(snapshot[i]) && Grown(snapshot, OpenerCount(snapshot, i), st)
    requires RepeatStep(st, snapshot[i], i).Ok?
    ensures Grown(snapshot, OpenerCount(snapshot, i + 1), RepeatStep(st, snapshot[i], i).value)
  {
    assert OpenerCount(snapshot, i + 1) == OpenerCount(snapshot, i) + 1;
    var e := OpenerStepInserts(st, snapshot[i], i);
    InsertGrows(snapshot, OpenerCount(snapshot, i), st.paragraphs, st.end, e);
  }

  /** Grown holds when the outer loop ends without raising. */
  lemma {:induction false} RepeatFromInvariant(snapshot: seq<Paragraph>, i: nat, st: State)
    requires i <= |snapshot| && Grown(snapshot, OpenerCount(snapshot, i), st)
    requires RepeatFrom(snapshot, i, st).Ok?
    ensures Grown(snapshot, OpenerCount(snapshot, |snapshot|), RepeatFrom(snapshot, i, st).value)
    decreases |snapshot| - i
  {
    if i < |snapshot| {
      if IsOpener(snapshot[i]) {
        OpenerKeepsInvariant(snapshot, i, st);
      } else {
        PlainStep(snapshot, i, st);
      }
      RepeatFromInvariant(snapshot, i + 1, RepeatStep(st, snapshot[i], i).value);
    }
  }

  /** The pass either raises or grows the document by exactly one "Inserted paragraph"
      for each opener of the snapshot, whatever the counts, and keeps every paragraph it
      had. */
  lemma {:induction false} RepeatParagraphsGrowth(ps: seq<Paragraph>)
    requires RepeatParagraphs(ps).Ok?
    ensures var r := RepeatParagraphs(ps).value;
      && |r| == |ps| + OpenerCount(ps, |ps|)
      && multiset(r) == multiset(ps) + Copies(InsertedParagraph, OpenerCount(ps, |ps|))
  {
    RepeatFromInvariant(ps, 0, Start(ps));
  }

  /** An opener whose count int() rejects makes the whole pass raise, wherever it
      stands: the passes before it either raise themselves or reach it. */
  lemma {:induction false} BadCountRaises(ps: seq<Paragraph>, k: nat)
    requires k < |ps| && IsOpener(ps[k]) && RepeatCount(ps[k]).Err?
    ensures RepeatParagraphs(ps).Err?
  {
    BadCountRaisesFrom(ps, 0, Start(ps), k);
  }

  /** The outer loop, from any paragraph up to such an opener and any state, raises. */
  lemma {:induction false} BadCountRaisesFrom(snapshot: seq<Paragraph>, i: nat, st: State, k: nat)
    requires i <= k < |snapshot| && IsOpener(snapshot[k]) && RepeatCount(snapshot[k]).Err?
    ensures RepeatFrom(snapshot, i, st).Err?
    decreases k - i
  {
    if i < k {
      var step := RepeatStep(st, snapshot[i], i);
      if step.Ok? {
        BadCountRaisesFrom(snapshot, i + 1, step.value, k);
      }
    }
  }

  /** Paragraphs that are not openers leave the loop state as it is. */
  lemma {:induction false} NoOpenerBetween(snapshot: seq<Paragraph>, lo: nat, hi: nat, st: State)
    requires lo <= hi <= |snapshot|
    requires forall j :: lo <= j < hi ==> !IsOpener(snapshot[j])
    ensures RepeatFrom(snapshot, lo, st) == RepeatFrom(snapshot, hi, st)
    decreases hi - lo
  {
    if lo < hi {
      NoOpenerBetween(snapshot, lo + 1, hi, st);
    }
  }

  /** A document without openers is left as it is. */
  lemma {:induction false} RepeatParagraphsWithoutOpeners(ps: seq<Paragraph>)
    requires forall j :: 0 <= j < |ps| ==> !IsOpener(ps[j])
    ensures RepeatParagraphs(ps) == Ok(ps)
  {
    NoOpenerBetween(ps, 0, |ps|, Start(ps));
  }

  /** The first opener of the document, at index `i`: a count that is not an integer
      raises ValueError; with no terminator after it the pass raises (repeat_end_paragraph
      is still unbound, or the opener is the last paragraph); otherwise one "Inserted
      paragraph" goes immediately before the last terminator after it, and the loop goes
      on from the next paragraph. */
  lemma {:induction false} FirstOpener(ps: seq<Paragraph>, i: nat)
    requires i < |ps| && IsOpener(ps[i]) && forall j :: 0 <= j < i ==> !IsOpener(ps[j])
    ensures RepeatCount(ps[i]).Err? ==> RepeatParagraphs(ps) == Err(ValueError)
    ensures RepeatCount(ps[i]).Ok? && (i + 1 == |ps| || LastTerminator(ps, i + 1, |ps|).None?) ==>
      RepeatParagraphs(ps).Err?
    ensures RepeatCount(ps[i]).Ok? && i + 1 < |ps| && LastTerminator(ps, i + 1, |ps|).Some? ==>
      var e := LastTerminator(ps, i + 1, |ps|).value;
      RepeatFrom(ps, 0, Start(ps)) == RepeatFrom(ps, i + 1, State(Insert(ps, e), Some(e - 1)))
  {
    NoOpenerBetween(ps, 0, i, Start(ps));
  }

  /** A document with a single opener, at index `i`, whose count is an integer and which
      a terminator follows, gains exactly one "Inserted paragraph", placed immediately
      before the last terminator after the opener, and nothing else changes. */
  lemma {:induction false} SingleOpener(ps: seq<Paragraph>, i: nat, e: nat)
    requires i < |ps| && IsOpener(ps[i]) && forall j :: 0 <= j < |ps| && j != i ==> !IsOpener(ps[j])
    requires RepeatCount(ps[i]).Ok?
    requires i + 1 < |ps| && LastTerminator(ps, i + 1, |ps|) == Some(e)
    ensures RepeatParagraphs(ps) == Ok(Insert(ps, e))
  {
    FirstOpener(ps, i);
    NoOpenerBetween(ps, i + 1, |ps|, State(Insert(ps, e), Some(e - 1)));
  }
}
