/** The table pass (processTables): every instruction paragraph in every cell of every
    table is overwritten with the text "PROCESSED". */
module Tables {
  import opened Docs

  /** The text the table pass writes into an instruction paragraph. */
  const Processed := "PROCESSED"

  /** What the pass does to one cell paragraph. */
  function MarkParagraph(p: Paragraph): Paragraph
  {
    if IsInstructionParagraph(p) then SetText(p, Processed) else p
  }

  /** An instruction paragraph is left holding the text "PROCESSED" and is still an
      instruction paragraph; any other paragraph is left as it is; the style is kept. */
  lemma {:induction false} MarkParagraphEffect(p: Paragraph)
    ensures var r := MarkParagraph(p);
      && (IsInstructionParagraph(p) ==> Text(r) == Processed && IsInstructionParagraph(r))
      && (!IsInstructionParagraph(p) ==> r == p)
      && r.style == p.style
  {
  }

  /** Marking a paragraph a second time changes nothing: a marked instruction paragraph
      is set again to the same single run. */
  lemma MarkParagraphIdempotent(p: Paragraph)
    ensures MarkParagraph(MarkParagraph(p)) == MarkParagraph(p)
  {
  }

  function MarkParagraphs(ps: seq<Paragraph>): (r: seq<Paragraph>)
    ensures |r| == |ps| && forall k :: 0 <= k < |ps| ==> r[k] == MarkParagraph(ps[k])
  {
    if ps == [] then [] else [MarkParagraph(ps[0])] + MarkParagraphs(ps[1..])
  }

  function MarkCell(c: Cell): Cell
  {
    Cell(MarkParagraphs(c.paragraphs))
  }

  function MarkCells(cs: seq<Cell>): (r: seq<Cell>)
    ensures |r| == |cs| && forall k :: 0 <= k < |cs| ==> r[k] == MarkCell(cs[k])
  {
    if cs == [] then [] else [MarkCell(cs[0])] + MarkCells(cs[1..])
  }

  function MarkRow(r: Row): Row
  {
    Row(MarkCells(r.cells))
  }

  function MarkRows(rs: seq<Row>): (r: seq<Row>)
    ensures |r| == |rs| && forall k :: 0 <= k < |rs| ==> r[k] == MarkRow(rs[k])
  {
    if rs == [] then [] else [MarkRow(rs[0])] + MarkRows(rs[1..])
  }

  function MarkTable(t: Table): Table
  {
    Table(MarkRows(t.rows))
  }

  /** processTables on the tables of a document. */
  function MarkTables(ts: seq<Table>): (r: seq<Table>)
    ensures |r| == |ts| && forall k :: 0 <= k < |ts| ==> r[k] == MarkTable(ts[k])
  {
    if ts == [] then [] else [MarkTable(ts[0])] + MarkTables(ts[1..])
  }

  /** A paragraph position: table, row, cell and paragraph index. */
  predicate IsPosition(ts: seq<Table>, t: nat, r: nat, c: nat, k: nat)
  {
    && t < |ts| && r < |ts[t].rows| && c < |ts[t].rows[r].cells|
    && k < |ts[t].rows[r].cells[c].paragraphs|
  }

  function At(ts: seq<Table>, t: nat, r: nat, c: nat, k: nat): Paragraph
    requires IsPosition(ts, t, r, c, k)
  {
    ts[t].rows[r].cells[c].paragraphs[k]
  }

  /** The pass keeps the shape of every table: the same tables, rows, cells and
      paragraphs at the same positions. */
  lemma {:induction false} MarkTablesKeepsShape(ts: seq<Table>)
    ensures var m := MarkTables(ts);
      && |m| == |ts|
      && (forall t :: 0 <= t < |ts| ==> |m[t].rows| == |ts[t].rows|)
      && (forall t, r :: 0 <= t < |ts| && 0 <= r < |ts[t].rows| ==>
            |m[t].rows[r].cells| == |ts[t].rows[r].cells|)
      && (forall t, r, c :: 0 <= t < |ts| && 0 <= r < |ts[t].rows| && 0 <= c < |ts[t].rows[r].cells| ==>
            |m[t].rows[r].cells[c].paragraphs| == |ts[t].rows[r].cells[c].paragraphs|)
  {
  }

  /** Every instruction paragraph of a cell ends with the text "PROCESSED", keeping its
      style, and every other paragraph is left as it is. */
  lemma {:induction false} MarkTablesEffect(ts: seq<Table>, t: nat, r: nat, c: nat, k: nat)
    requires IsPosition(ts, t, r, c, k)
    ensures IsPosition(MarkTables(ts), t, r, c, k)
    ensures var p, q := At(ts, t, r, c, k), At(MarkTables(ts), t, r, c, k);
      && (IsInstructionParagraph(p) ==> Text(q) == Processed && q.style == p.style)
      && (!IsInstructionParagraph(p) ==> q == p)
  {
    MarkTablesKeepsShape(ts);
    MarkParagraphEffect(At(ts, t, r, c, k));
  }

  /** Running the table pass twice gives the same tables as running it once. */
  lemma {:induction false} MarkTablesIdempotent(ts: seq<Table>)
    ensures MarkTables(MarkTables(ts)) == MarkTables(ts)
  {
    var m := MarkTables(ts);
    forall t | 0 <= t < |ts| ensures MarkTable(m[t]) == m[t] {
      MarkTableIdempotent(ts[t]);
    }
  }

  lemma {:induction false} MarkTableIdempotent(t: Table)
    ensures MarkTable(MarkTable(t)) == MarkTable(t)
  {
    var m := MarkTable(t);
    forall r | 0 <= r < |t.rows| ensures MarkRow(m.rows[r]) == m.rows[r] {
      MarkRowIdempotent(t.rows[r]);
    }
  }

  lemma {:induction false} MarkRowIdempotent(r: Row)
    ensures MarkRow(MarkRow(r)) == MarkRow(r)
  {
    var m := MarkRow(r);
    forall c | 0 <= c < |r.cells| ensures MarkCell(m.cells[c]) == m.cells[c] {
      MarkCellIdempotent(r.cells[c]);
    }
  }

  lemma {:induction false} MarkCellIdempotent(c: Cell)
    ensures MarkCell(MarkCell(c)) == MarkCell(c)
  {
    var m := MarkCell(c);
    forall k | 0 <= k < |c.paragraphs| ensures MarkParagraph(m.paragraphs[k]) == m.paragraphs[k] {
      MarkParagraphIdempotent(c.paragraphs[k]);
    }
  }

  /** The innermost loop of processTables (lines 117-120), over the paragraphs of one
      cell, overwriting each instruction paragraph in place. */
  method ProcessCell(cell: Cell) returns (out: Cell)
    ensures out == MarkCell(cell)
  {
    var ps := cell.paragraphs;
    for k := 0 to |ps|
      invariant |ps| == |cell.paragraphs|
      invariant forall j :: 0 <= j < k ==> ps[j] == MarkParagraph(cell.paragraphs[j])
      invariant forall j :: k <= j < |ps| ==> ps[j] == cell.paragraphs[j]
    {
      if IsInstructionParagraph(ps[k]) {
        ps := ps[k := SetText(ps[k], Processed)];
      }
    }
    out := Cell(ps);
  }

  /** The loop over the cells of one row (line 116). */
  method ProcessRow(row: Row) returns (out: Row)
    ensures out == MarkRow(row)
  {
    var cs := row.cells;
    for k := 0 to |cs|
      invariant |cs| == |row.cells|
      invariant forall j :: 0 <= j < k ==> cs[j] == MarkCell(row.cells[j])
      invariant forall j :: k <= j < |cs| ==> cs[j] == row.cells[j]
    {
      var c := ProcessCell(cs[k]);
      cs := cs[k := c];
    }
    out := Row(cs);
  }

  /** The loop over the rows of one table (line 115). */
  method ProcessTable(table: Table) returns (out: Table)
    ensures out == MarkTable(table)
  {
    var rs := table.rows;
    for k := 0 to |rs|
      invariant |rs| == |table.rows|
      invariant forall j :: 0 <= j < k ==> rs[j] == MarkRow(table.rows[j])
      invariant forall j :: k <= j < |rs| ==> rs[j] == table.rows[j]
    {
      var r := ProcessRow(rs[k]);
      rs := rs[k := r];
    }
    out := Table(rs);
  }
}
