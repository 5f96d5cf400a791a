/** The word-processing document as the engine sees it: paragraphs of styled
    text runs, and tables whose cells hold paragraphs of their own. */
module Docs {
  import opened Strings

  /** The style name that marks template instructions. */
  const MarkupStyle := "CoupaMarkUp"
  /** The character style of a run created by setting a paragraph's text. */
  const DefaultRunStyle := "Default Paragraph Font"
  /** The paragraph style of a paragraph inserted without an explicit style. */
  const DefaultParagraphStyle := "Normal"

  /** A run: an atomic piece of text with its character style name. */
  datatype Run = Run(text: string, style: string)

  /** A paragraph: its paragraph style name and its ordered runs. */
  datatype Paragraph = Paragraph(style: string, runs: seq<Run>)

  datatype Cell = Cell(paragraphs: seq<Paragraph>)
  datatype Row = Row(cells: seq<Cell>)
  datatype Table = Table(rows: seq<Row>)

  /** A run holds (part of) an instruction when its style name contains the
      markup style name. */
  predicate IsInstructionRun(r: Run)
  {
    Contains(r.style, MarkupStyle)
  }

  /** A paragraph is an instruction paragraph when its style name is exactly
      the markup style name. */
  predicate IsInstructionParagraph(p: Paragraph)
  {
    p.style == MarkupStyle
  }

  /** The text of the runs from `lo` up to (not including) `hi`: their texts in order. */
  function RangeText(runs: seq<Run>, lo: nat, hi: nat): string
    requires lo <= hi <= |runs|
    decreases hi - lo
  {
    if lo == hi then "" else RangeText(runs, lo, hi - 1) + runs[hi - 1].text
  }

  /** The text of a run list: its run texts in order. */
  function Concat(runs: seq<Run>): string
  {
    RangeText(runs, 0, |runs|)
  }

  /** The text of a range of runs is the text of its first part followed by the rest. */
  lemma {:induction false} RangeTextSplit(runs: seq<Run>, lo: nat, mid: nat, hi: nat)
    requires lo <= mid <= hi <= |runs|
    ensures RangeText(runs, lo, hi) == RangeText(runs, lo, mid) + RangeText(runs, mid, hi)
    decreases hi - mid
  {
    if mid < hi {
      RangeTextSplit(runs, lo, mid, hi - 1);
    }
  }

  /** A range of runs that all have empty text has empty text together. */
  lemma {:induction false} RangeTextOfEmpty(runs: seq<Run>, lo: nat, hi: nat)
    requires lo <= hi <= |runs| && forall j :: lo <= j < hi ==> runs[j].text == ""
    ensures RangeText(runs, lo, hi) == ""
    decreases hi - lo
  {
    if lo < hi {
      RangeTextOfEmpty(runs, lo, hi - 1);
    }
  }

  /** Two run lists whose texts agree on a range have the same text there. */
  lemma {:induction false} RangeTextAgree(x: seq<Run>, y: seq<Run>, lo: nat, hi: nat)
    requires lo <= hi <= |x| && hi <= |y|
    requires forall j :: lo <= j < hi ==> x[j].text == y[j].text
    ensures RangeText(x, lo, hi) == RangeText(y, lo, hi)
    decreases hi - lo
  {
    if lo < hi {
      RangeTextAgree(x, y, lo, hi - 1);
    }
  }

  /** A paragraph's text (the `text` property). */
  function Text(p: Paragraph): string
  {
    Concat(p.runs)
  }

  /** Assigning a paragraph's `text`: its runs are replaced by a single run
      with the default character style holding the new text; the paragraph
      style is kept. */
  function SetText(p: Paragraph, s: string): (r: Paragraph)
    ensures Text(r) == s && r.style == p.style
    ensures |r.runs| == 1 && r.runs[0].style == DefaultRunStyle
  {
    var run := Run(s, DefaultRunStyle);
    assert Concat([run]) == s by {
      assert RangeText([run], 0, 1) == RangeText([run], 0, 0) + s;
    }
    Paragraph(p.style, [run])
  }

  /** The run that setting a paragraph's text creates is not an instruction run. */
  lemma {:induction false} DefaultStyleIsNotMarkup()
    ensures !Contains(DefaultRunStyle, MarkupStyle)
  {
    var s := DefaultRunStyle;
    assert forall k :: 0 <= k < |s| ==> s[k] != 'C';
    LacksFirstCharacter(s, MarkupStyle);
  }

  /** A string in which the first character of `t` never occurs does not contain `t`. */
  lemma {:induction false} LacksFirstCharacter(s: string, t: string)
    requires t != [] && forall k :: 0 <= k < |s| ==> s[k] != t[0]
    ensures !Contains(s, t)
  {
    if s != [] {
      if |t| <= |s| {
        assert s[..|t|][0] != t[0];
      }
      LacksFirstCharacter(s[1..], t);
    }
  }

  /** The paragraph insert_paragraph_before("Inserted paragraph") creates. */
  const InsertedParagraph := Paragraph(DefaultParagraphStyle, [Run("Inserted paragraph", DefaultRunStyle)])
}
