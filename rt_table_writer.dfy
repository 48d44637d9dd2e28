/** RTTableFileWriter: a table with one row per procedure mention whose
    text mentions a dose, in begin order, numbered from 1 in each document
    by a counter the writer resets. */
module RTTableWriter {
  import opened Wrappers
  import opened Annotations
  import Text
  import opened Cells

  /** `createHeaderRow`. */
  const HeaderRow := [" procedure_number ", " central_dose ", " boost ", " date ",
                      " secondary_dose ", " fraction_frequency ", " fraction_number ", " site "]

  /** A `ModifierRow`: the procedure number and the seven slots' texts. */
  datatype ModifierRow = ModifierRow(
    procedureNumber: string,
    centralDose: string,
    boost: string,
    date: string,
    secondaryDose: string,
    fractionFrequency: string,
    fractionNumber: string,
    site: string)

  /** `getColumns`: the row's fields in the header's order. */
  function GetColumns(row: ModifierRow): seq<string> {
    [row.procedureNumber, row.centralDose, row.boost, row.date,
     row.secondaryDose, row.fractionFrequency, row.fractionNumber, row.site]
  }

  /** The row the constructor builds for `rt` once the counter reads `number`;
      each slot goes through `getOffsets`. */
  function RowOf(rt: Mention, number: int): ModifierRow {
    var c := CellTexts(SlotSpans(rt));
    ModifierRow(Text.IntToString(number), c[0], c[1], c[2], c[3], c[4], c[5], c[6])
  }

  /** A row's columns line up with the header: the number, then the
      mention's own span and its six attributes in slot order, all readable
      back. */
  lemma RowColumns(rt: Mention, number: int)
    ensures |GetColumns(RowOf(rt, number))| == |HeaderRow|
    ensures Text.ParseInt(GetColumns(RowOf(rt, number))[0]) == Some(number)
    ensures ParseCells(GetColumns(RowOf(rt, number))[1..]) == Some(SlotSpans(rt))
  {
    var cols := GetColumns(RowOf(rt, number));
    assert Text.ParseInt(cols[0]) == Some(number) by {
      Text.IntToStringRoundTrip(number);
    }
    assert ParseCells(cols[1..]) == Some(SlotSpans(rt)) by {
      RowCells(rt, number);
      ParseCellsRoundTrip(SlotSpans(rt));
    }
  }

  lemma RowCells(rt: Mention, number: int)
    ensures GetColumns(RowOf(rt, number))[1..] == CellTexts(SlotSpans(rt))
  {
    var t := CellTexts(SlotSpans(rt));
    assert GetColumns(RowOf(rt, number))[1..] == [t[0], t[1], t[2], t[3], t[4], t[5], t[6]];
  }

  // ---------------------------------------------------------------------
  // Which mentions get a row.

  /** `p.getCoveredText().toLowerCase().contains("dose")`; the covered text
      throws for a span outside the document. */
  function MentionsDose(doc: string, m: Mention): Result<bool> {
    match CoveredText(doc, m.span)
    case Err(e) => Err(e)
    case Ok(t) => Ok(Text.Contains(Text.ToLower(t), "dose"))
  }

  /** The stream's filter: the mentions that mention a dose, in their order;
      the first mention whose text cannot be read ends the stream. */
  function DoseMentions(doc: string, mentions: seq<Mention>): Result<seq<Mention>>
    decreases |mentions|
  {
    if |mentions| == 0 then Ok([])
    else
      var n := |mentions| - 1;
      match DoseMentions(doc, mentions[..n])
      case Err(e) => Err(e)
      case Ok(kept) =>
        match MentionsDose(doc, mentions[n])
        case Err(e) => Err(e)
        case Ok(dose) => Ok(if dose then kept + [mentions[n]] else kept)
  }

  /** The filter fails exactly when some mention lies outside the document,
      and then with the covered-text error. */
  lemma {:induction false} DoseMentionsFails(doc: string, mentions: seq<Mention>)
    ensures DoseMentions(doc, mentions).Ok? <==>
            forall k :: 0 <= k < |mentions| ==> 0 <= mentions[k].span.begin <= mentions[k].span.end <= |doc|
    ensures DoseMentions(doc, mentions).Err? ==> DoseMentions(doc, mentions).error == CoveredTextOutOfRange
    decreases |mentions|
  {
    if |mentions| > 0 {
      var n := |mentions| - 1;
      DoseMentionsFails(doc, mentions[..n]);
      assert forall k :: 0 <= k < n ==> mentions[..n][k] == mentions[k];
    }
  }

  /** A successful filter keeps each mention that mentions a dose, as many
      times as it occurs, and nothing else. */
  lemma {:induction false} DoseMentionsKeeps(doc: string, mentions: seq<Mention>)
    requires DoseMentions(doc, mentions).Ok?
    ensures forall x :: multiset(DoseMentions(doc, mentions).value)[x] ==
                        if MentionsDose(doc, x) == Ok(true) then multiset(mentions)[x] else 0
    decreases |mentions|
  {
    if |mentions| > 0 {
      var n := |mentions| - 1;
      var init := mentions[..n];
      DoseMentionsKeeps(doc, init);
      assert mentions == init + [mentions[n]];
    }
  }

  /** One row per mention of `sorted`, the k-th numbered k + 1. */
  function NumberedRows(sorted: seq<Mention>): seq<seq<string>> {
    seq(|sorted|, k requires 0 <= k < |sorted| => GetColumns(RowOf(sorted[k], k + 1)))
  }

  /** Each numbered row has the header's eight columns and reads back as its
      number and its mention's slots. */
  lemma NumberedRowsRead(sorted: seq<Mention>)
    ensures |NumberedRows(sorted)| == |sorted|
    ensures forall k :: 0 <= k < |sorted| ==>
              |NumberedRows(sorted)[k]| == |HeaderRow| &&
              Text.ParseInt(NumberedRows(sorted)[k][0]) == Some(k + 1) &&
              ParseCells(NumberedRows(sorted)[k][1..]) == Some(SlotSpans(sorted[k]))
  {
    var rows := NumberedRows(sorted);
    forall k | 0 <= k < |sorted|
      ensures |rows[k]| == |HeaderRow|
      ensures Text.ParseInt(rows[k][0]) == Some(k + 1)
      ensures ParseCells(rows[k][1..]) == Some(SlotSpans(sorted[k]))
    {
      assert rows[k] == GetColumns(RowOf(sorted[k], k + 1));
      RowColumns(sorted[k], k + 1);
    }
  }

  /** The rows `createDataRows` returns: the kept mentions sorted by begin
      (stably), numbered from 1. */
  function DataRows(doc: string, mentions: seq<Mention>): Result<seq<seq<string>>> {
    match DoseMentions(doc, mentions)
    case Err(e) => Err(e)
    case Ok(kept) => Ok(NumberedRows(SortBy(kept, MentionBegin)))
  }

  /** One row per kept mention, in begin order (equal begins in input order),
      numbered 1..n in row order, each with the header's eight columns. */
  lemma DataRowsSpec(doc: string, mentions: seq<Mention>)
    requires DataRows(doc, mentions).Ok?
    ensures var kept := DoseMentions(doc, mentions).value;
            var sorted := SortBy(kept, MentionBegin);
            var rows := DataRows(doc, mentions).value;
            |rows| == |kept| &&
            multiset(sorted) == multiset(kept) &&
            (forall i, j :: 0 <= i < j < |sorted| ==> sorted[i].span.begin <= sorted[j].span.begin) &&
            (forall b :: KeyFilter(sorted, MentionBegin, b) == KeyFilter(kept, MentionBegin, b)) &&
            (forall k :: 0 <= k < |rows| ==>
               |rows[k]| == |HeaderRow| &&
               Text.ParseInt(rows[k][0]) == Some(k + 1) &&
               ParseCells(rows[k][1..]) == Some(SlotSpans(sorted[k])))
  {
    var kept := DoseMentions(doc, mentions).value;
    StableSortSpec(kept, MentionBegin);
    NumberedRowsRead(SortBy(kept, MentionBegin));
  }

  // ---------------------------------------------------------------------
  // The writer.

  /** The writer with its static `AtomicInteger COUNTER` as a field. */
  class TableWriter {
    var counter: int

    constructor ()
      ensures counter == 0
    {
      counter := 0;
    }

    /** `new ModifierRow(rt)`: `incrementAndGet` numbers the row. */
    method NewModifierRow(rt: Mention) returns (row: ModifierRow)
      modifies this
      ensures counter == old(counter) + 1
      ensures row == RowOf(rt, counter)
    {
      counter := counter + 1;
      row := RowOf(rt, counter);
    }

    /** `createDataRows`: reset the counter, filter, sort by begin, then
        build and flatten one row per mention. The sort consumes the whole
        filtered stream first, so a filter exception leaves the counter at 0. */
    method CreateDataRows(doc: string, mentions: seq<Mention>) returns (rows: Result<seq<seq<string>>>)
      modifies this
      ensures rows == DataRows(doc, mentions)
      ensures counter == if rows.Ok? then |rows.value| else 0
    {
      counter := 0;
      var kept := DoseMentions(doc, mentions);
      if kept.Err? {
        return Err(kept.error);
      }
      var sorted := SortBy(kept.value, MentionBegin);
      var out := NumberRows(sorted);
      rows := Ok(out);
    }
  
    /** The `map(ModifierRow::new)` and `map(getColumns)` stages, from a
        freshly reset counter. */
    method NumberRows(sorted: seq<Mention>) returns (out: seq<seq<string>>)
      requires counter == 0
      modifies this
      ensures out == NumberedRows(sorted)
      ensures counter == |sorted|
    {
      ghost var all := NumberedRows(sorted);
      out := [];
      for k := 0 to |sorted|
        invariant counter == k
        invariant out == all[..k]
      {
        var row := NewModifierRow(sorted[k]);
        assert GetColumns(row) == all[k];
        assert all[..k + 1] == all[..k] + [all[k]];
        out := out + [GetColumns(row)];
      }
      assert all[..|sorted|] == all;
    }
  }
}
