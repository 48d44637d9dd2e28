/** How both tabular writers spell an attribute slot: `begin_end` for a
    present span and `None` for an absent one. */
module Cells {
  import opened Wrappers
  import opened Annotations
  import Text

  /** `begin + "_" + end` (`%d_%d` without the CSV comma). */
  function OffsetText(sp: Span): string {
    Text.IntToString(sp.begin) + "_" + Text.IntToString(sp.end)
  }

  /** The placeholder the writers put for an absent attribute. */
  const NoAnnotation := "None"

  function CellText(o: Option<Span>): string {
    match o
    case None => NoAnnotation
    case Some(sp) => OffsetText(sp)
  }

  /** A cell is never empty and holds no comma and no line break. */
  lemma CellTextShape(o: Option<Span>)
    ensures |CellText(o)| > 0
    ensures ',' !in CellText(o) && '\n' !in CellText(o)
  {
    if o.Some? {
      var b := Text.IntToString(o.value.begin);
      var e := Text.IntToString(o.value.end);
      assert CellText(o) == b + "_" + e;
      assert forall k :: 0 <= k < |b| ==> b[k] != ',' && b[k] != '\n';
      assert forall k :: 0 <= k < |e| ==> e[k] != ',' && e[k] != '\n';
    }
  }

  /** Reads a cell back: `None`, or two decimal integers around an underscore. */
  function ParseCell(f: string): Option<Option<Span>> {
    if f == NoAnnotation then Some(None)
    else
      var parts := Text.Fields(f, '_');
      if |parts| == 2 && Text.ParseInt(parts[0]).Some? && Text.ParseInt(parts[1]).Some? then
        Some(Some(Span(Text.ParseInt(parts[0]).value, Text.ParseInt(parts[1]).value)))
      else None
  }

  /** The cell text determines the slot: reading it back gives the span, or
      its absence. */
  lemma CellRoundTrip(o: Option<Span>)
    ensures ParseCell(CellText(o)) == Some(o)
  {
    if o.Some? {
      var b := Text.IntToString(o.value.begin);
      var e := Text.IntToString(o.value.end);
      assert '_' !in b by {
        assert forall k :: 0 <= k < |b| ==> b[k] != '_';
      }
      assert '_' !in e by {
        assert forall k :: 0 <= k < |e| ==> e[k] != '_';
      }
      assert CellText(o) != NoAnnotation by {
        assert CellText(o)[0] == b[0];
      }
      Text.FieldsSplit(b, '_', e);
      Text.FieldsWhole(e, '_');
      Text.IntToStringRoundTrip(o.value.begin);
      Text.IntToStringRoundTrip(o.value.end);
    }
  }

  function CellTexts(slots: seq<Option<Span>>): (r: seq<string>)
    ensures |r| == |slots|
  {
    seq(|slots|, i requires 0 <= i < |slots| => CellText(slots[i]))
  }

  /** Reads a list of cells; any unreadable cell makes the list unreadable. */
  function ParseCells(fields: seq<string>): Option<seq<Option<Span>>> {
    if forall i :: 0 <= i < |fields| ==> ParseCell(fields[i]).Some? then
      Some(seq(|fields|, i requires 0 <= i < |fields| => ParseCell(fields[i]).value))
    else None
  }

  /** Cell texts read back as the slots they were written from. */
  lemma ParseCellsRoundTrip(slots: seq<Option<Span>>)
    ensures ParseCells(CellTexts(slots)) == Some(slots)
  {
    var t := CellTexts(slots);
    forall i | 0 <= i < |slots| ensures ParseCell(t[i]) == Some(slots[i]) {
      CellRoundTrip(slots[i]);
    }
    assert seq(|t|, i requires 0 <= i < |t| => ParseCell(t[i]).value) == slots;
  }
}
