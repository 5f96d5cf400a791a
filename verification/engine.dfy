/** The document the script loads and the passes it runs over it, in place: the variable
    pass over the body paragraphs, the table pass, then the repeat pass. */
module Engine {
  import opened Errors
  import opened Strings
  import opened Docs
  import opened Scanning
  import opened Variables
  import opened Tables
  import opened Repeat

  /** What printProcessingInstructions reports for a list of paragraphs, paragraph by
      paragraph. */
  function DocumentInstructions(ps: seq<Paragraph>): seq<string>
  {
    if ps == [] then [] else DocumentInstructions(ps[..|ps| - 1]) + ParagraphInstructions(ps[|ps| - 1])
  }

  /** The body of a document: its paragraphs and its tables. */
  datatype Body = Body(paragraphs: seq<Paragraph>, tables: seq<Table>)

  /** Lines 166-168: the variable pass, the table pass, then the repeat pass. The table
      pass works on the tables only and cannot raise; the repeat pass sees the paragraphs
      the variable pass left. */
  function ProcessBody(b: Body, vars: map<string, string>): Result<Body>
  {
    var substituted :- SubstituteParagraphs(b.paragraphs, vars);
    var marked := MarkTables(b.tables);
    var repeated :- RepeatParagraphs(substituted);
    Ok(Body(repeated, marked))
  }

  /** When the script gets through its passes, the tables are marked once and the
      paragraphs are as many as the document had plus one for each opener the variable
      pass left. */
  lemma {:induction false} ProcessBodyShape(b: Body, vars: map<string, string>)
    requires ProcessBody(b, vars).Ok?
    ensures SubstituteParagraphs(b.paragraphs, vars).Ok?
    ensures var substituted := SubstituteParagraphs(b.paragraphs, vars).value;
      var r := ProcessBody(b, vars).value;
      && r.tables == MarkTables(b.tables)
      && |r.paragraphs| == |b.paragraphs| + OpenerCount(substituted, |substituted|)
  {
    var substituted := SubstituteParagraphs(b.paragraphs, vars).value;
    RepeatParagraphsGrowth(substituted);
  }

  /** Running the table pass again on the result changes nothing. */
  lemma {:induction false} ProcessBodyTablesSettled(b: Body, vars: map<string, string>)
    requires ProcessBody(b, vars).Ok?
    ensures var r := ProcessBody(b, vars).value; MarkTables(r.tables) == r.tables
  {
    MarkTablesIdempotent(b.tables);
  }

  /** A document loaded from a file, whose paragraphs and tables the passes update in
      place. */
  class Document {
    var paragraphs: seq<Paragraph>
    var tables: seq<Table>

    constructor (paragraphs: seq<Paragraph>, tables: seq<Table>)
      ensures this.paragraphs == paragraphs && this.tables == tables
    {
      this.paragraphs := paragraphs;
      this.tables := tables;
    }

    /** printProcessingInstructions (lines 12-31), returning what it prints. */
    method PrintProcessingInstructions() returns (found: seq<string>)
      ensures found == DocumentInstructions(paragraphs)
    {
      found := [];
      for i := 0 to |paragraphs|
        invariant found == DocumentInstructions(paragraphs[..i])
      {
        var f := ScanParagraph(paragraphs[i]);
        assert paragraphs[..i + 1][..i] == paragraphs[..i];
        found := found + f;
      }
      assert paragraphs[..|paragraphs|] == paragraphs;
    }

    /** processVariables (lines 66-104): each paragraph is rewritten in place, in order,
      until one raises. */
    method ProcessVariables(vars: map<string, string>) returns (res: Outcome)
      modifies this
      ensures tables == old(tables)
      ensures res == OutcomeOf(SubstituteParagraphs(old(paragraphs), vars))
      ensures res.Pass? ==> paragraphs == SubstituteParagraphs(old(paragraphs), vars).value
    {
      ghost var original := paragraphs;
      ghost var outcomes := Outcomes(original, vars);
      for i := 0 to |paragraphs|
        invariant |paragraphs| == |original| && tables == old(tables)
        invariant forall j :: 0 <= j < i ==> outcomes[j] == Ok(paragraphs[j])
        invariant forall j :: i <= j < |paragraphs| ==> paragraphs[j] == original[j]
      {
        var q := ProcessParagraph(paragraphs[i], vars);
        assert outcomes[i] == q;
        if q.Err? {
          CollectFirstErr(outcomes, i);
          return Fail(q.error);
        }
        paragraphs := paragraphs[i := q.value];
      }
      CollectAllOk(outcomes, paragraphs);
      res := Pass;
    }

    /** processTables (lines 107-120): the tables are rewritten in place, one after the
      other; the body paragraphs are not touched. */
    method ProcessTables()
      modifies this
      ensures tables == MarkTables(old(tables))
      ensures paragraphs == old(paragraphs)
    {
      for k := 0 to |tables|
        invariant |tables| == |old(tables)| && paragraphs == old(paragraphs)
        invariant forall j :: 0 <= j < k ==> tables[j] == MarkTable(old(tables)[j])
        invariant forall j :: k <= j < |tables| ==> tables[j] == old(tables)[j]
      {
        var t := ProcessTable(tables[k]);
        tables := tables[k := t];
      }
    }

    /** processRepeatParagraphs (lines 123-156): the loop runs over the paragraphs the
      document had when it started, while the searches and the insertions use the
      live list. */
    method ProcessRepeatParagraphs() returns (res: Outcome)
      modifies this
      ensures tables == old(tables)
      ensures res == OutcomeOf(RepeatParagraphs(old(paragraphs)))
      ensures res.Pass? ==> paragraphs == RepeatParagraphs(old(paragraphs)).value
    {
      var snapshot := paragraphs;
      var end: Option<nat> := None;
      for i := 0 to |snapshot|
        invariant tables == old(tables)
        invariant RepeatFrom(snapshot, 0, Start(snapshot)) == RepeatFrom(snapshot, i, State(paragraphs, end))
      {
        var p := snapshot[i];
        ghost var st := State(paragraphs, end);
        if IsInstructionParagraph(p) {
          var instruction := Strip(Text(p));
          if StartsWith(instruction, OpenerPrefix) {
            var times := ParseInt(instruction[|OpenerPrefix|..]);
            if times.Err? {
              return Fail(times.error);
            }
            var found := FindEnd(paragraphs, i + 1, end);
            if i + 1 >= |paragraphs| {
              return Fail(IndexError);
            }
            if found.None? {
              return Fail(UnboundLocalError);
            }
            if found.value + 1 >= |paragraphs| {
              return Fail(IndexError);
            }
            paragraphs := Insert(paragraphs, found.value + 1);
            end := found;
          }
        }
        assert RepeatStep(st, p, i) == Ok(State(paragraphs, end));
      }
      res := Pass;
    }

    /** The script's three passes in order (lines 166-168). */
    method ProcessTemplate(vars: map<string, string>) returns (res: Outcome)
      modifies this
      ensures res == OutcomeOf(ProcessBody(old(Body(paragraphs, tables)), vars))
      ensures res.Pass? ==> Body(paragraphs, tables) == ProcessBody(old(Body(paragraphs, tables)), vars).value
    {
      res := ProcessVariables(vars);
      if res.Fail? {
        return;
      }
      ProcessTables();
      res := ProcessRepeatParagraphs();
    }
  }
}
