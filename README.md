# RT procedure mentions: writers and annotator bookkeeping

This project models the parts of the cTAKES radiotherapy (RT) parser that
handle procedure mentions. A procedure mention is a central dose span plus
six optional attribute spans: status change (boost), start time (date),
total dose (secondary dose), frequency, dosage count and anatomical site.
All proofs are in Dafny.

- **RTProcedureTextWriter** (`ProcedureTextWriter`, with `Tagging` and
  `LabelMaps`). Sentences are visited in begin order. For each mention a
  sentence covers, also in begin order, the writer emits a header with the
  1-based positions of the sentence and the mention. It then emits the
  sentence's covered text, with newlines turned into spaces. Each span of
  the mention is wrapped in `<label>`…`</label>`. Span offsets are made
  local to the sentence, and the text after the last span is kept.
- **PrettyRTWriter** (`PrettyRTWriter`). Mentions are visited in begin
  order. Each is rendered in the first sentence that covers it, under a
  number taken from a counter that is never reset. The text stops at the
  last closing tag. The writer is modelled with the spans' offsets made
  local to the sentence, the corrected behaviour of the Findings row below;
  `AbsoluteBlock` is the block as written, with document offsets, and the
  two agree only for a sentence starting at offset 0.
- **PrettyCSVWriter** (`PrettyCSVWriter`, `Cells`). The file has a header
  line and then one line per mention, in begin order. Each line holds seven
  cells, `begin_end,` or `None,`.
- **RTTableFileWriter** (`RTTableWriter`). One row per mention whose
  lower-cased text contains `dose`, in begin order. Rows are numbered from 1
  by a counter that is reset for every document.
- **rt_annotator.py** (`RTAnnotator`). Three parts:
  - `ctakes_clean`: each sentence's tokens sorted by begin, the
    space-joined text with `<cr>` for newline tokens, and the token map.
  - `get_casoid_entities`: the dose and attribute index sets of one
    classified paragraph.
  - The loop in `process`: each relation is attached to a dose; procedures
    are created per dose, as many as its longest attribute list; token
    indices are mapped back to document offsets.

  The models' answers are inputs. The model states when `process` raises:
  ValueError for no sentences or no paragraphs, IndexError for a token
  index outside the token map.

Every writer call that changes the output is a method on `Output.Sink`.
Each is proved against a ghost function of what the call writes, and
lemmas state what that function promises: text preservation, marker
pairing, offset translation, ordering and numbering, round trips through
the CSV and table cells, and exactly when an exception is raised.

Three conventions run through the model:
- A Java exception or Python error is an `Err` result.
- An output interrupted by an exception is a `Written(text, failure)`
  value: what was written up to the exception, and the error.
- Python's negative indices and slice clamping are written out explicitly.

## Model

Paths are relative to the repository root:
`src/main/java/org/apache/ctakes/...` for the writers and
`src/user/resources/.../rt_parser/rt_annotator.py` for the annotator.

| member | source | states |
|---|---|---|
| Annotations.CoveredText | src/main/java/org/apache/ctakes/examples/cc/RTProcedureTextWriter.java:190 | `getCoveredText` succeeds exactly when the span lies inside the document, and then yields the document's characters at the span, one by one; otherwise it gives the covered-text error |
| Annotations.SortBySpec | src/main/java/org/apache/ctakes/examples/cc/RTProcedureTextWriter.java:54-60 | the begin-offset sort yields an ordering by key that is a permutation of its input |
| Annotations.InsertStable | src/main/java/org/apache/ctakes/examples/cc/RTProcedureTextWriter.java:54-60 | inserting into a begin-sorted list puts the new element after every element with the same begin |
| Annotations.SortByStable | src/main/java/org/apache/ctakes/examples/cc/RTProcedureTextWriter.java:54-60 | the sort is stable: for every key, the elements with that key come out in their input order |
| Annotations.StableSortSpec | src/main/java/org/apache/ctakes/examples/cc/RTProcedureTextWriter.java:54-60 | the whole contract of Java's and Python's stable sorts: ordered by key, a permutation, and ties in input order |
| Text.NormalizeSlice | src/main/java/org/apache/ctakes/examples/cc/RTProcedureTextWriter.java:190-200 | replacing newlines commutes with slicing, so sentence-local offsets pick out the same text before and after the replacement |
| Text.NormalizeIdempotent | src/main/java/org/apache/ctakes/core/cc/pretty/plaintext/PrettyRTWriter.java:173-177 | the sentence text holds no newline after `replace("\n", " ")`, and a second replacement changes nothing |
| Text.IntToStringRoundTrip | src/main/java/org/apache/ctakes/core/cc/pretty/plaintext/PrettyCSVWriter.java:107-112 | an offset's decimal text reads back as that offset |
| Text.IntToStringInjective | src/main/java/org/apache/ctakes/core/cc/pretty/plaintext/PrettyRTWriter.java:128 | distinct numbers are printed as distinct texts |
| Text.JoinLocates | src/user/resources/org/apache/ctakes/rt_parser/rt_parser_py/src/rt_parser/rt_annotator.py:44 | in `" ".join(parts)` each part sits at its computed offset and is followed by exactly one space unless it is the last |
| Text.JoinLength | src/user/resources/org/apache/ctakes/rt_parser/rt_parser_py/src/rt_parser/rt_annotator.py:44 | the joined length is the parts' total length plus one per gap |
| LabelMaps.PutAllKeys | src/main/java/org/apache/ctakes/examples/cc/RTProcedureTextWriter.java:125-165 | a span is a key of the label map exactly when one of the puts was made on it |
| LabelMaps.PutAllLastWins | src/main/java/org/apache/ctakes/examples/cc/RTProcedureTextWriter.java:125-165 | each key carries the label of the last put on it |
| LabelMaps.LabelMapKeys | src/main/java/org/apache/ctakes/core/cc/pretty/plaintext/PrettyRTWriter.java:131-171 | the keys are the mention's own span and the spans of its present attributes, and nothing else |
| LabelMaps.CentralDoseLabel | src/main/java/org/apache/ctakes/examples/cc/RTProcedureTextWriter.java:126-130 | the mention's span is always a key, labelled `central-dose` unless an attribute has exactly the same span |
| LabelMaps.SlotLabel | src/main/java/org/apache/ctakes/examples/cc/RTProcedureTextWriter.java:131-165 | a present attribute's span is a key, and it carries that attribute's label unless a later put repeats the span |
| LabelMaps.BuildLabelMap | src/main/java/org/apache/ctakes/core/cc/pretty/plaintext/PrettyRTWriter.java:131-171 | the seven guarded puts build LabelMap, whose keys and labels the lemmas above describe |
| Output.ChainSucceedsIff | src/main/java/org/apache/ctakes/examples/cc/RTProcedureTextWriter.java:67-84 | a run of writer calls finishes without an exception exactly when every call does |
| Output.ChainStopsAtFirstFailure | src/main/java/org/apache/ctakes/examples/cc/RTProcedureTextWriter.java:79-81 | a failing run ends at its first failing call; the output is the earlier calls' text plus what the failing call wrote before throwing |
| Tagging.LexOrder | src/main/java/org/apache/ctakes/examples/cc/RTProcedureTextWriter.java:178-188 | the label map's keys, each once, in strictly increasing (begin, end) order |
| Tagging.LexOrderByBegin | src/main/java/org/apache/ctakes/examples/cc/RTProcedureTextWriter.java:178-188 | that order sorts by begin, as the source's comparator requires |
| Tagging.SuccessfulOrderIsLexOrder | src/main/java/org/apache/ctakes/examples/cc/RTProcedureTextWriter.java:178-203 | any begin-sorted enumeration of the keys that tags without an exception is the (begin, end) order, so HashMap ties never change a successful output |
| Tagging.SentenceText | src/main/java/org/apache/ctakes/examples/cc/RTProcedureTextWriter.java:190 | the text the tagger walks exists exactly when the sentence lies in the document, and is its covered text with newlines made spaces |
| Tagging.TagSucceedsIff | src/main/java/org/apache/ctakes/examples/cc/RTProcedureTextWriter.java:194-203 | the appends stay in bounds exactly when every translated span lies in the text with begin <= end and each span ends no later than the next one begins |
| Tagging.TagPreservesText | src/main/java/org/apache/ctakes/examples/cc/RTProcedureTextWriter.java:194-205 | deleting the markers gives back the text: all of it when the remainder is appended, up to the last span's end when it is not |
| Tagging.TagMarkers | src/main/java/org/apache/ctakes/examples/cc/RTProcedureTextWriter.java:195-201 | the markers are one `<label>` followed by one `</label>` per span, in span order, with the span's label |
| Tagging.TagEncloses | src/main/java/org/apache/ctakes/examples/cc/RTProcedureTextWriter.java:196-201 | the i-th pair of markers encloses the text at the i-th span's offsets minus the origin |
| Tagging.TagTranslatesOffsets | src/main/java/org/apache/ctakes/examples/cc/RTProcedureTextWriter.java:190-201 | with the sentence begin as origin, every tagged span lies inside the sentence and encloses the document's own text at that span |
| Tagging.AppendStep | src/main/java/org/apache/ctakes/examples/cc/RTProcedureTextWriter.java:195-202 | one loop pass succeeds exactly when both `append(text, from, to)` calls are in bounds, and then extends the output by that step's text |
| Tagging.TagLoop | src/main/java/org/apache/ctakes/examples/cc/RTProcedureTextWriter.java:192-203 | the loop completes exactly when every step is in bounds; it then leaves the output of all steps and the cursor at the last span's local end |
| Tagging.TagInOrder | src/main/java/org/apache/ctakes/examples/cc/RTProcedureTextWriter.java:192-207 | the loop plus the optional remainder yields the rendered Tag result |
| Tagging.OrderedSpans | src/main/java/org/apache/ctakes/examples/cc/RTProcedureTextWriter.java:178-188 | the sort of the keys returns LexOrder |
| Tagging.TaggedSentence | src/main/java/org/apache/ctakes/examples/cc/RTProcedureTextWriter.java:176-208 | `taggedSentence` returns the rendered Tag over the keys in LexOrder |
| Tagging.TagCovered | src/main/java/org/apache/ctakes/examples/cc/RTProcedureTextWriter.java:176-208 | the covered text (or its exception), with newlines replaced, is tagged |
| ProcedureTextWriter.HeaderInjective | src/main/java/org/apache/ctakes/examples/cc/RTProcedureTextWriter.java:116-122 | the header `Paragraph: i , ProcedureMention: j` determines both numbers |
| ProcedureTextWriter.MentionBlockCorrect | src/main/java/org/apache/ctakes/examples/cc/RTProcedureTextWriter.java:103-174 | with sentence-local offsets, as written at RTProcedureTextWriter.java:196-197, the block starts with its header; it is whole exactly when the sentence is in the document and the sentence-local spans are well placed; the text then equals the sentence once the markers are deleted |
| ProcedureTextWriter.CoveredByMembers | src/main/java/org/apache/ctakes/examples/cc/RTProcedureTextWriter.java:39 | `indexCovered` gives a sentence exactly the mentions it covers |
| ProcedureTextWriter.PlanNumbering | src/main/java/org/apache/ctakes/examples/cc/RTProcedureTextWriter.java:62-78 | each call's numbers are its sentence's 1-based position among the sorted sentences and its mention's 1-based position in that sentence's sorted list |
| ProcedureTextWriter.PlanCovers | src/main/java/org/apache/ctakes/examples/cc/RTProcedureTextWriter.java:39-53 | each call's mention is one of the document's mentions, and that call's sentence covers it |
| ProcedureTextWriter.PlanComplete | src/main/java/org/apache/ctakes/examples/cc/RTProcedureTextWriter.java:62-84 | every sorted sentence gets one call for each mention it covers |
| ProcedureTextWriter.PlanOrder | src/main/java/org/apache/ctakes/examples/cc/RTProcedureTextWriter.java:54-84 | calls go by sentence and then by mention, both by begin offset, with strictly increasing numbers |
| ProcedureTextWriter.WriteMention | src/main/java/org/apache/ctakes/examples/cc/RTProcedureTextWriter.java:103-174 | the writer's content grows by the mention's block, and the call fails exactly as the block does |
| ProcedureTextWriter.WriteSentence | src/main/java/org/apache/ctakes/examples/cc/RTProcedureTextWriter.java:68-83 | the inner `forEach` writes the sentence's calls in order, up to the first failure |
| ProcedureTextWriter.WriteSentences | src/main/java/org/apache/ctakes/examples/cc/RTProcedureTextWriter.java:62-84 | the outer `forEach` writes the whole plan, up to the first failure |
| ProcedureTextWriter.WriteFile | src/main/java/org/apache/ctakes/examples/cc/RTProcedureTextWriter.java:38-85 | the file is the plan over the begin-sorted sentences, written up to the first failure |
| PrettyRTWriter.HeaderInjective | src/main/java/org/apache/ctakes/core/cc/pretty/plaintext/PrettyRTWriter.java:128 | the header `\nN.\t` determines N |
| PrettyRTWriter.ContainerIsFirstCovering | src/main/java/org/apache/ctakes/core/cc/pretty/plaintext/PrettyRTWriter.java:82-93 | a container is found exactly when some sentence covers the mention, and it is the first such sentence; otherwise `next()` throws |
| PrettyRTWriter.MentionBlockCorrect | src/main/java/org/apache/ctakes/core/cc/pretty/plaintext/PrettyRTWriter.java:117-182 | with sentence-local offsets (the corrected block of the Findings row), the block starts with its header; it is whole exactly when the sentence is in the document and the sentence-local spans are well placed; the text then equals the sentence up to the last span's end once the markers are deleted |
| PrettyRTWriter.CallsWhole | src/main/java/org/apache/ctakes/core/cc/pretty/plaintext/PrettyRTWriter.java:92-95 | a file written without an exception has a container for every mention and advances the counter once per mention |
| PrettyRTWriter.CallsBound | src/main/java/org/apache/ctakes/core/cc/pretty/plaintext/PrettyRTWriter.java:92-95 | the counter never advances by more than the number of mentions |
| PrettyRTWriter.BlockNumber | src/main/java/org/apache/ctakes/core/cc/pretty/plaintext/PrettyRTWriter.java:128-129 | the k-th sorted mention's block starts with the header for the counter's start value plus k |
| PrettyRTWriter.NumbersDistinct | src/main/java/org/apache/ctakes/core/cc/pretty/plaintext/PrettyRTWriter.java:128-129 | blocks at different positions carry different headers |
| PrettyRTWriter.Writer.WriteMention | src/main/java/org/apache/ctakes/core/cc/pretty/plaintext/PrettyRTWriter.java:117-182 | the counter goes up by one, and the content grows by the block numbered with the old counter, tagged with sentence-local offsets (the corrected block of the Findings row, not the document offsets as written) |
| PrettyRTWriter.Writer.WriteFile | src/main/java/org/apache/ctakes/core/cc/pretty/plaintext/PrettyRTWriter.java:80-100 | the mentions are written in begin order, numbered on from the counter, up to the first exception; the counter advances once per mention reached that has a container; each block is the corrected one of the Findings row |
| PrettyRTWriter.AgreesAtOrigin | src/main/java/org/apache/ctakes/core/cc/pretty/plaintext/PrettyRTWriter.java:198-206 | for a sentence starting at offset 0, the block as written and the block as intended coincide |
| PrettyRTWriter.AbsoluteOffsetsCounterexample | src/main/java/org/apache/ctakes/core/cc/pretty/plaintext/PrettyRTWriter.java:198-206 | as written, the mention `a` in the sentence `ab` at offset 2 of `xxab` makes the writer throw after the header |
| PrettyRTWriter.CorrectedExample | src/main/java/org/apache/ctakes/core/cc/pretty/plaintext/PrettyRTWriter.java:198-206 | with offsets made sentence-local, the same input is tagged `<central-dose>a</central-dose>` |
| PrettyRTWriter.MentionBlockSucceeds | src/main/java/org/apache/ctakes/core/cc/pretty/plaintext/PrettyRTWriter.java:184-210 | with offsets made sentence-local, a mention is written whole when its spans lie inside its sentence and do not overlap |
| PrettyRTWriter.MentionBlockTagsDocumentText | src/main/java/org/apache/ctakes/core/cc/pretty/plaintext/PrettyRTWriter.java:184-210 | in a whole block, the i-th pair of markers encloses the document's own text at the i-th span |
| Cells.CellTextShape | src/main/java/org/apache/ctakes/examples/cc/RTTableFileWriter.java:106-108 | a cell is never empty and holds no comma and no newline |
| Cells.CellRoundTrip | src/main/java/org/apache/ctakes/examples/cc/RTTableFileWriter.java:106-108 | a `begin_end` or `None` cell reads back as the span, or as its absence |
| Cells.ParseCellsRoundTrip | src/main/java/org/apache/ctakes/core/cc/pretty/plaintext/PrettyCSVWriter.java:136-184 | a list of cells reads back as the slots it was written from |
| PrettyCSVWriter.RowRoundTrip | src/main/java/org/apache/ctakes/core/cc/pretty/plaintext/PrettyCSVWriter.java:123-186 | a data line splits into exactly seven comma-ended cells that read back as the mention's seven slots, in column order |
| PrettyCSVWriter.FileRoundTrip | src/main/java/org/apache/ctakes/core/cc/pretty/plaintext/PrettyCSVWriter.java:79-105 | the file reads back as the header line and one row of slots per mention, in the order written |
| PrettyCSVWriter.RowsInBeginOrder | src/main/java/org/apache/ctakes/core/cc/pretty/plaintext/PrettyCSVWriter.java:85-92 | there is one row per mention, and the rows are a begin-ordered permutation of the mentions in which mentions with equal begins keep their input order |
| PrettyCSVWriter.WriteCell | src/main/java/org/apache/ctakes/core/cc/pretty/plaintext/PrettyCSVWriter.java:144-149 | a present slot writes `begin_end,`; an absent one writes `None,` |
| PrettyCSVWriter.WriteMention | src/main/java/org/apache/ctakes/core/cc/pretty/plaintext/PrettyCSVWriter.java:123-186 | the seven cells in slot order, then a newline |
| PrettyCSVWriter.WriteFile | src/main/java/org/apache/ctakes/core/cc/pretty/plaintext/PrettyCSVWriter.java:79-105 | the header line, then the lines of the begin-sorted mentions |
| RTTableWriter.RowColumns | src/main/java/org/apache/ctakes/examples/cc/RTTableFileWriter.java:83-104 | a row has the header's eight columns; the first reads back as the row number and the rest as the mention's seven slots |
| RTTableWriter.DoseMentionsFails | src/main/java/org/apache/ctakes/examples/cc/RTTableFileWriter.java:59-61 | the dose filter throws exactly when some mention's span lies outside the document |
| RTTableWriter.DoseMentionsKeeps | src/main/java/org/apache/ctakes/examples/cc/RTTableFileWriter.java:59-61 | the filter keeps every mention whose lower-cased text contains `dose`, as often as it occurs, and nothing else |
| RTTableWriter.NumberedRowsRead | src/main/java/org/apache/ctakes/examples/cc/RTTableFileWriter.java:63-66 | the k-th row reads back as number k + 1 and the k-th mention's slots |
| RTTableWriter.DataRowsSpec | src/main/java/org/apache/ctakes/examples/cc/RTTableFileWriter.java:56-67 | one row per kept mention, in begin order with equal begins in input order, numbered 1..n in row order, each with eight columns |
| RTTableWriter.TableWriter.NewModifierRow | src/main/java/org/apache/ctakes/examples/cc/RTTableFileWriter.java:83-92 | `incrementAndGet` raises the counter by one and numbers the row with the new value |
| RTTableWriter.TableWriter.NumberRows | src/main/java/org/apache/ctakes/examples/cc/RTTableFileWriter.java:63-66 | from a reset counter, rows are numbered 1..n in sorted order and the counter ends at n |
| RTTableWriter.TableWriter.CreateDataRows | src/main/java/org/apache/ctakes/examples/cc/RTTableFileWriter.java:56-67 | resets the counter and returns DataRows; afterwards the counter holds the row count (0 after a filter exception) |
| RTAnnotator.PySlice | src/user/resources/org/apache/ctakes/rt_parser/rt_parser_py/src/rt_parser/rt_annotator.py:38 | a Python slice never raises and is never longer than the string; with in-range bounds it is the plain substring |
| RTAnnotator.CoveredSpansMember | src/user/resources/org/apache/ctakes/rt_parser/rt_parser_py/src/rt_parser/rt_annotator.py:29-30 | `select_covered` returns exactly the annotations the sentence covers |
| RTAnnotator.TokenizeSpec | src/user/resources/org/apache/ctakes/rt_parser/rt_parser_py/src/rt_parser/rt_annotator.py:22-23 | the token map lists each base token inside the sentence once per occurrence, in begin order |
| RTAnnotator.CleanedTokenText | src/user/resources/org/apache/ctakes/rt_parser/rt_parser_py/src/rt_parser/rt_annotator.py:32-43 | token k's text is `<cr>` exactly when the token is a newline token, and its covered text otherwise |
| RTAnnotator.CtakesClean | src/user/resources/org/apache/ctakes/rt_parser/rt_parser_py/src/rt_parser/rt_annotator.py:26-44 | returns the sorted tokens as the token map and the space-joined token texts as the cleaned sentence |
| RTAnnotator.GetCasoidEntities | src/user/resources/org/apache/ctakes/rt_parser/rt_parser_py/src/rt_parser/rt_annotator.py:47-73 | the loop over the nested dictionary builds AxisSpans and SigSpans |
| RTAnnotator.AxisSpansMembers | src/user/resources/org/apache/ctakes/rt_parser/rt_parser_py/src/rt_parser/rt_annotator.py:62-70 | the axis set holds exactly the dose indices of every visit, each labelled `rt_dose` |
| RTAnnotator.SigSpansMembers | src/user/resources/org/apache/ctakes/rt_parser/rt_parser_py/src/rt_parser/rt_annotator.py:62-72 | the attribute set holds exactly the window-shifted indices of the visits whose task is not `rt_dose`, with that task as label |
| RTAnnotator.DoseSetOfCasoid | src/user/resources/org/apache/ctakes/rt_parser/rt_parser_py/src/rt_parser/rt_annotator.py:144-146 | a paragraph's dose set is exactly the set of dose indices its visits carry |
| RTAnnotator.LastSegment | src/user/resources/org/apache/ctakes/rt_parser/rt_parser_py/src/rt_parser/rt_annotator.py:162 | `split("-")[-1]` has no `-`, is a suffix of the label, and is preceded by `-` whenever it is not the whole label |
| RTAnnotator.AttachmentSource | src/user/resources/org/apache/ctakes/rt_parser/rt_parser_py/src/rt_parser/rt_annotator.py:155-171 | every append comes from one relation, whose index it returns |
| RTAnnotator.AttachmentMade | src/user/resources/org/apache/ctakes/rt_parser/rt_parser_py/src/rt_parser/rt_annotator.py:155-171 | each relation's appends are all made |
| RTAnnotator.AttachmentRules | src/user/resources/org/apache/ctakes/rt_parser/rt_parser_py/src/rt_parser/rt_annotator.py:163-171 | every attribute hangs on a dose, except the `dose` attribute of a DOSE-DOSE relation, which both spans get, each pointing at the other; a relation that is not DOSE-DOSE and touches no dose attaches nothing |
| RTAnnotator.CollectValues | src/user/resources/org/apache/ctakes/rt_parser/rt_parser_py/src/rt_parser/rt_annotator.py:154-169 | the nested defaultdict holds under each anchor and attribute exactly the values appended there, in order |
| RTAnnotator.CollectAnchors | src/user/resources/org/apache/ctakes/rt_parser/rt_parser_py/src/rt_parser/rt_annotator.py:154-169 | its anchors are exactly the spans something was appended under |
| RTAnnotator.CollectWellFormed | src/user/resources/org/apache/ctakes/rt_parser/rt_parser_py/src/rt_parser/rt_annotator.py:154-169 | anchors appear once each in insertion order, and no anchor or attribute exists without an appended value |
| RTAnnotator.GroupRelations | src/user/resources/org/apache/ctakes/rt_parser/rt_parser_py/src/rt_parser/rt_annotator.py:154-171 | the grouping loop builds Collect of the relations' appends |
| RTAnnotator.GroupRelation | src/user/resources/org/apache/ctakes/rt_parser/rt_parser_py/src/rt_parser/rt_annotator.py:155-171 | one relation's appends: both directions of a DOSE-DOSE pair, else one append on the dose span (first span checked first), else none |
| RTAnnotator.MaxLenSpec | src/user/resources/org/apache/ctakes/rt_parser/rt_parser_py/src/rt_parser/rt_annotator.py:174 | `num_procedures` bounds every attribute list and equals the length of one of them |
| RTAnnotator.LongestList | src/user/resources/org/apache/ctakes/rt_parser/rt_parser_py/src/rt_parser/rt_annotator.py:174 | the pass over the lists computes MaxLen |
| RTAnnotator.CreateProcedures | src/user/resources/org/apache/ctakes/rt_parser/rt_parser_py/src/rt_parser/rt_annotator.py:173-204 | creating and filling one anchor's procedures gives AnchorProcedures: ValueError with no lists, IndexError for an index outside the token map, and otherwise the procedures |
| RTAnnotator.AnchorProceduresSpec | src/user/resources/org/apache/ctakes/rt_parser/rt_parser_py/src/rt_parser/rt_annotator.py:173-204 | one procedure per element of the longest list; every procedure runs from the anchor's first token's begin to its last token's end; slot s of procedure idx holds the idx-th value under s's key, mapped to offsets, or nothing |
| RTAnnotator.SequencedFailureSticks | src/user/resources/org/apache/ctakes/rt_parser/rt_parser_py/src/rt_parser/rt_annotator.py:173-204 | once an anchor (or a paragraph) raises, nothing after it is created: the run's result is that first error |
| RTAnnotator.SequencedSucceedsIff | src/user/resources/org/apache/ctakes/rt_parser/rt_parser_py/src/rt_parser/rt_annotator.py:153-204 | a run of anchors (or paragraphs) completes exactly when every one of them succeeds |
| RTAnnotator.CreateAnchorsProcedures | src/user/resources/org/apache/ctakes/rt_parser/rt_parser_py/src/rt_parser/rt_annotator.py:173-204 | the loop over the grouped anchors yields each anchor's procedures in insertion order, ending with the first error raised |
| RTAnnotator.ProcessParagraph | src/user/resources/org/apache/ctakes/rt_parser/rt_parser_py/src/rt_parser/rt_annotator.py:153-204 | one paragraph's loop body yields ParagraphProcedures: the anchors' procedures in insertion order, up to the first error |
| RTAnnotator.ParagraphSucceedsIff | src/user/resources/org/apache/ctakes/rt_parser/rt_parser_py/src/rt_parser/rt_annotator.py:173-186 | a paragraph raises exactly when some attached anchor or value index lies outside its token map, with negative indices counting from the end |
| RTAnnotator.CleanSentences | src/user/resources/org/apache/ctakes/rt_parser/rt_parser_py/src/rt_parser/rt_annotator.py:111-114 | each sorted sentence gets its cleaned text and its token map, in order |
| RTAnnotator.ParagraphDoseSets | src/user/resources/org/apache/ctakes/rt_parser/rt_parser_py/src/rt_parser/rt_annotator.py:138-146 | each classified paragraph gets the dose set of its axis spans |
| RTAnnotator.ProcessParagraphs | src/user/resources/org/apache/ctakes/rt_parser/rt_parser_py/src/rt_parser/rt_annotator.py:153-206 | the zipped loop creates each paragraph's procedures in order; the first paragraph that raises ends it |
| RTAnnotator.Process | src/user/resources/org/apache/ctakes/rt_parser/rt_parser_py/src/rt_parser/rt_annotator.py:97-207 | the cleaned sentences handed to the models, and Processed: ValueError with no sentences or no paragraphs, the zip stopping at the shorter input, and otherwise the paragraphs' procedures |
| RTAnnotator.ProcessSucceedsIff | src/user/resources/org/apache/ctakes/rt_parser/rt_parser_py/src/rt_parser/rt_annotator.py:109-204 | a document is processed without raising exactly when it has a sentence, the models return a paragraph, and in every zipped paragraph each attached index lies inside that paragraph's token map |

## Left out

- File names, output directories, `DocIdUtil`, logging, and the `print`/`current` progress lines: these are I/O and carry no logic. Each writer writes to a `Sink` whose content is a string.
- `IOException` from the underlying writer: the model's writes never fail. The only exceptions modelled are those the code raises itself, on covered text, `append` bounds, `next()`, ValueError and IndexError.
- `newLine()`: modelled as `"\n"`; the platform line separator is not modelled.
- `String.format("%d", …)` uses the default locale, which can localise digits; `Text.IntToString` always writes ASCII decimal digits.
- Strings: Java strings are modelled as sequences of characters, not UTF-16 units. `toLowerCase` and Python's `lower()` are modelled for ASCII letters only.
- Tagging.LexOrder: the source sorts the HashMap's keys by begin only, leaving ties in hash order; the model takes them in (begin, end) order. SuccessfulOrderIsLexOrder proves that a run without an exception cannot depend on the tie order. The model does not capture the one divergence: the source may throw when an empty span follows a non-empty span with the same begin in hash order, where the model does not.
- The models `generate_paragraph_casoids`, `classify_casoid_annotations` and `casoid_to_label_tuples`, and their loading in `initialize`: these are foreign calls. Their output is the input `classified`, one `Classified(casoid, relations)` per paragraph. The nested casoid dictionary is given flattened, as the sequence of its innermost visits.
- `add_type` and the CAS: procedures and their attribute annotations are returned as `Mention` values, not added to a CAS. The annotations already added when `process` raises part-way are not modelled; only the error is.
- The iteration order of `mention_attributes` is not modelled. CreateProcedures picks the keys in any order, and the result does not depend on it. An attribute key that the `elif` chain does not name still counts toward `num_procedures` and toward IndexError, as in the source, but sets no slot.
- RTAnnotator.Attach: for a relation that is not DOSE-DOSE and touches no dose, the source builds an `AttributeError` without raising it (line 171). The model drops the relation, as the source does.
- Annotation identity: two mentions with equal spans and slots are equal values here. The writers number mentions by position (`indexOf` on UIMA annotations finds the annotation itself), so nothing depends on identity.
- PrettyRTWriter.Writer: the static counter is a field of the writer object, starting at 0. The model does not cover its sharing across threads. The writer also tags with sentence-local offsets, the corrected behaviour of the Findings row, so for a sentence that does not start at offset 0 it writes a whole block where the source, indexing with document offsets, throws or tags other text; `AbsoluteBlock` models the source's block as written, and `AgreesAtOrigin` proves the two coincide when the sentence starts at 0.
- PrettyRTWriter.NumbersDistinct: the procedure counter is an unbounded integer. The source's `static int _current_procedure` is 32-bit, never reset, and wraps to negative after 2^31 increments; the wrap is not modelled, so distinct headers hold only for fewer than 2^32 blocks over the counter's lifetime.
- RTTableWriter.TableWriter.NewModifierRow: the row counter is an unbounded integer. `AtomicInteger.incrementAndGet` wraps after 2^31 increments; the wrap is not modelled, so row numbers 1..n hold only for fewer than 2^31 rows in one document.

## Findings

| source | as written | input that shows it | evidently intended | confidence | as-written member | corrected member |
|---|---|---|---|---|---|---|
| src/main/java/org/apache/ctakes/core/cc/pretty/plaintext/PrettyRTWriter.java:198-206 | `taggedSentence` indexes the sentence's own text with the spans' document offsets, untranslated | document `xxab`, sentence [2, 4) (text `ab`), mention [2, 3): `append(text, 0, 2)` then `append(text, 2, 3)` runs past the 2-character text, so the writer throws after the header | subtract the sentence begin from every offset, as RTProcedureTextWriter.java:196-197 does; the mention is then tagged `<central-dose>a</central-dose>` | high (not executed) | PrettyRTWriter.AbsoluteOffsetsCounterexample | PrettyRTWriter.MentionBlockSucceeds |
