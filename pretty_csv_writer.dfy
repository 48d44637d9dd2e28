/** PrettyCSVWriter: a header line, then one line per procedure mention in
    begin order, holding the mention's seven slots as `begin_end,` or
    `None,` cells. */
module PrettyCSVWriter {
  import opened Wrappers
  import opened Annotations
  import Text
  import opened Cells
  import opened Output

  /** The first line of every file. */
  const HeaderLine := "central_dose,boost,date,secondary_dose,fraction_frequency,fraction_number,site"

  /** `getSpan`: `"%d_%d,"`. */
  function SpanCell(sp: Span): string {
    OffsetText(sp) + ","
  }

  /** The cell of one slot: `getSpan` of a present span, and the placeholder
      `"None,"` where the getter or `getSpan` throws on an absent one. */
  function Cell(o: Option<Span>): string {
    match o
    case None => NoAnnotation + ","
    case Some(sp) => SpanCell(sp)
  }

  /** The cells of the given slots, written one after another. */
  function CellsText(slots: seq<Option<Span>>): string
    decreases |slots|
  {
    if |slots| == 0 then "" else CellsText(slots[..|slots| - 1]) + Cell(slots[|slots| - 1])
  }

  /** A data line without its newline. */
  function RowLine(m: Mention): string {
    CellsText(SlotSpans(m))
  }

  /** The line is the slots' cell texts, each ended by a comma. */
  lemma {:induction false} CellsTextTerminated(slots: seq<Option<Span>>)
    ensures CellsText(slots) == Text.Terminated(CellTexts(slots), ',')
    decreases |slots|
  {
    if |slots| > 0 {
      var n := |slots| - 1;
      var init := slots[..n];
      var t := CellTexts(init);
      var c := CellText(slots[n]);
      assert CellTexts(slots) == t + [c];
      calc {
        CellsText(slots);
        CellsText(init) + Cell(slots[n]);
        { CellsTextTerminated(init); }
        Text.Terminated(t, ',') + (c + ",");
        { Text.Assoc(Text.Terminated(t, ','), c, ","); }
        Text.Terminated(t, ',') + c + [','];
        { Text.TerminatedAppend(t, c, ','); }
        Text.Terminated(t + [c], ',');
      }
    }
  }

  /** Writing one more slot's cell extends the line by that cell. */
  lemma CellsTextStep(written: string, slots: seq<Option<Span>>, k: nat)
    requires k < |slots|
    ensures written + CellsText(slots[..k]) + Cell(slots[k]) == written + CellsText(slots[..k + 1])
  {
    Text.PrefixOfPrefix(slots, k, k + 1);
    Text.Assoc(written, CellsText(slots[..k]), Cell(slots[k]));
  }

  // ---------------------------------------------------------------------
  // Reading a file back.

  /** A data line: exactly seven cells, each `None` or `begin_end`. */
  function ParseRow(line: string): Option<seq<Option<Span>>> {
    var fields := Text.Fields(line, ',');
    if |fields| == 7 then ParseCells(fields) else None
  }

  function ParseRows(lines: seq<string>): Option<seq<seq<Option<Span>>>> {
    if forall i :: 0 <= i < |lines| ==> ParseRow(lines[i]).Some? then
      Some(seq(|lines|, i requires 0 <= i < |lines| => ParseRow(lines[i]).value))
    else None
  }

  /** A file: the header line, then data lines. */
  function ParseFile(s: string): Option<seq<seq<Option<Span>>>> {
    var h := HeaderLine + "\n";
    if |h| <= |s| && s[..|h|] == h then ParseRows(Text.Fields(s[|h|..], '\n')) else None
  }

  lemma CellTextsAvoid(slots: seq<Option<Span>>)
    ensures forall i :: 0 <= i < |slots| ==> ',' !in CellTexts(slots)[i] && '\n' !in CellTexts(slots)[i]
  {
    forall i | 0 <= i < |slots| ensures ',' !in CellTexts(slots)[i] && '\n' !in CellTexts(slots)[i] {
      CellTextShape(slots[i]);
    }
  }

  /** Every data line reads back as the mention's seven slots in column order;
      no cell is empty, and an absent slot reads as absent. */
  lemma RowRoundTrip(m: Mention)
    ensures ParseRow(RowLine(m)) == Some(SlotSpans(m))
  {
    var c := SlotSpans(m);
    var t := CellTexts(c);
    assert RowLine(m) == Text.Terminated(t, ',') by {
      CellsTextTerminated(c);
    }
    assert Text.Fields(RowLine(m), ',') == t by {
      CellTextsAvoid(c);
      Text.FieldsTerminated(t, ',');
    }
    ParseCellsRoundTrip(c);
  }

  /** The lines after the header. */
  function Lines(sorted: seq<Mention>): seq<string> {
    seq(|sorted|, k requires 0 <= k < |sorted| => RowLine(sorted[k]))
  }

  /** The file written for mentions already in begin order. */
  function FileText(sorted: seq<Mention>): string {
    HeaderLine + "\n" + Text.Terminated(Lines(sorted), '\n')
  }

  lemma RowLineHasNoNewline(m: Mention)
    ensures '\n' !in RowLine(m)
  {
    var c := SlotSpans(m);
    CellsTextTerminated(c);
    CellTextsAvoid(c);
    Text.TerminatedAvoids(CellTexts(c), ',', '\n');
  }

  lemma ParseRowsRoundTrip(sorted: seq<Mention>)
    ensures ParseRows(Lines(sorted)) == Some(seq(|sorted|, k requires 0 <= k < |sorted| => SlotSpans(sorted[k])))
  {
    var lines := Lines(sorted);
    forall k | 0 <= k < |sorted| ensures ParseRow(lines[k]) == Some(SlotSpans(sorted[k])) {
      RowRoundTrip(sorted[k]);
    }
    assert seq(|lines|, i requires 0 <= i < |lines| => ParseRow(lines[i]).value) ==
           seq(|sorted|, k requires 0 <= k < |sorted| => SlotSpans(sorted[k]));
  }

  /** The file reads back as the header and one row of slots per mention,
      in the order written. */
  lemma FileRoundTrip(sorted: seq<Mention>)
    ensures ParseFile(FileText(sorted)) == Some(seq(|sorted|, k requires 0 <= k < |sorted| => SlotSpans(sorted[k])))
  {
    var lines := Lines(sorted);
    var h := HeaderLine + "\n";
    var f := FileText(sorted);
    assert f[..|h|] == h && f[|h|..] == Text.Terminated(lines, '\n');
    assert Text.Fields(f[|h|..], '\n') == lines by {
      forall k | 0 <= k < |lines| ensures '\n' !in lines[k] {
        RowLineHasNoNewline(sorted[k]);
      }
      Text.FieldsTerminated(lines, '\n');
    }
    ParseRowsRoundTrip(sorted);
  }

  /** The rows come in begin order, one per mention, mentions with equal
      begins in their input order. */
  lemma RowsInBeginOrder(mentions: seq<Mention>)
    ensures var sorted := SortBy(mentions, MentionBegin);
            |Lines(sorted)| == |mentions| &&
            multiset(sorted) == multiset(mentions) &&
            (forall i, j :: 0 <= i < j < |sorted| ==> sorted[i].span.begin <= sorted[j].span.begin) &&
            forall b :: KeyFilter(sorted, MentionBegin, b) == KeyFilter(mentions, MentionBegin, b)
  {
    StableSortSpec(mentions, MentionBegin);
  }

  // ---------------------------------------------------------------------
  // The writer.

  /** One `try { write(getSpan(..)) } catch { write("None,") }` block. */
  method WriteCell(attribute: Option<Span>, writer: Sink)
    modifies writer
    ensures writer.content == old(writer.content) + Cell(attribute)
  {
    var youGotTheDud := NoAnnotation + ",";
    match attribute
    case Some(sp) =>
      writer.Write(SpanCell(sp));
    case None =>
      writer.Write(youGotTheDud);
  }

  /** The try block for slot k: its cell follows the cells of the slots
      before it. */
  method WriteCellAt(slots: seq<Option<Span>>, k: nat, ghost written: string, writer: Sink)
    requires k < |slots| && writer.content == written + CellsText(slots[..k])
    modifies writer
    ensures writer.content == written + CellsText(slots[..k + 1])
  {
    WriteCell(slots[k], writer);
    CellsTextStep(written, slots, k);
  }

  /** `writeMention`: the seven cells, then a newline. */
  method WriteMention(procedureMention: Mention, writer: Sink)
    modifies writer
    ensures writer.content == old(writer.content) + RowLine(procedureMention) + "\n"
  {
    var c := SlotSpans(procedureMention);
    ghost var w := writer.content;
    assert w == w + CellsText(c[..0]);
    WriteCellAt(c, 0, w, writer);
    WriteCellAt(c, 1, w, writer);
    WriteCellAt(c, 2, w, writer);
    WriteCellAt(c, 3, w, writer);
    WriteCellAt(c, 4, w, writer);
    WriteCellAt(c, 5, w, writer);
    WriteCellAt(c, 6, w, writer);
    assert c[..7] == c;
    writer.Write("\n");
  }

  lemma LinesStep(sorted: seq<Mention>, k: nat)
    requires k < |sorted|
    ensures Lines(sorted[..k + 1]) == Lines(sorted[..k]) + [RowLine(sorted[k])]
  {
    var a := Lines(sorted[..k + 1]);
    var b := Lines(sorted[..k]) + [RowLine(sorted[k])];
    forall i | 0 <= i < |a| ensures a[i] == b[i] {
      assert sorted[..k + 1][i] == sorted[i];
    }
  }

  /** One more data line extends the file by that line and a newline. */
  lemma FileStep(start: string, sorted: seq<Mention>, k: nat)
    requires k < |sorted|
    ensures start + Text.Terminated(Lines(sorted[..k]), '\n') + RowLine(sorted[k]) + "\n" ==
            start + Text.Terminated(Lines(sorted[..k + 1]), '\n')
  {
    var before := Lines(sorted[..k]);
    var line := RowLine(sorted[k]);
    var t := Text.Terminated(before, '\n');
    LinesStep(sorted, k);
    calc {
      start + t + line + "\n";
      { Text.Assoc(start, t, line); }
      start + (t + line) + "\n";
      { Text.Assoc(start, t + line, "\n"); }
      start + (t + line + ['\n']);
      { Text.TerminatedAppend(before, line, '\n'); }
      start + Text.Terminated(before + [line], '\n');
    }
  }

  /** `writeFile`: the header line, then the mentions sorted by begin. */
  method WriteFile(mentions: seq<Mention>, writer: Sink)
    modifies writer
    ensures writer.content == old(writer.content) + FileText(SortBy(mentions, MentionBegin))
  {
    writer.Write(HeaderLine);
    writer.Write("\n");
    var sorted := SortBy(mentions, MentionBegin);
    ghost var start := writer.content;
    assert Lines(sorted[..0]) == [];
    var k := 0;
    while k < |sorted|
      invariant 0 <= k <= |sorted|
      invariant writer.content == start + Text.Terminated(Lines(sorted[..k]), '\n')
    {
      WriteMention(sorted[k], writer);
      FileStep(start, sorted, k);
      k := k + 1;
    }
    assert sorted[..k] == sorted;
    Text.Assoc(old(writer.content), HeaderLine, "\n");
    Text.Assoc(old(writer.content) + HeaderLine, "\n", Text.Terminated(Lines(sorted), '\n'));
  }
}
