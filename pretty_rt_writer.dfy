/** PrettyRTWriter: every procedure mention, in begin order, rendered into
    the first sentence that covers it, prefixed by a running number that a
    static counter supplies; the tagged text stops at the last closing tag.
    The source indexes the sentence text with the spans' document offsets;
    the writer here translates them into the sentence (AbsoluteBlock and
    AbsoluteOffsetsCounterexample show what the untranslated offsets do). */
module PrettyRTWriter {
  import opened Wrappers
  import opened Annotations
  import Text
  import opened LabelMaps
  import opened Tagging
  import opened Output

  /** `String.format("\n%d.\t", n)`. */
  function Header(n: int): string {
    "\n" + Text.IntToString(n) + ".\t"
  }

  /** Distinct counter values give distinct headers. */
  lemma HeaderInjective(a: int, b: int)
    requires Header(a) == Header(b)
    ensures a == b
  {
    var x := Text.IntToString(a);
    var y := Text.IntToString(b);
    assert |x| == |y|;
    assert Header(a)[1..1 + |x|] == x;
    assert Header(b)[1..1 + |y|] == y;
    Text.IntToStringInjective(a, b);
  }

  // ---------------------------------------------------------------------
  // The container.

  /** `sentIndex.get(mention).iterator().next()`: the first sentence, in the
      covering index's order, that covers the mention; with none,
      `next()` throws and nothing is written for the mention. */
  function Container(sentences: seq<Span>, m: Span): Result<Span>
    decreases |sentences|
  {
    if |sentences| == 0 then Err(NoContainer)
    else if Covers(sentences[0], m) then Ok(sentences[0])
    else Container(sentences[1..], m)
  }

  /** The container is found exactly when some sentence covers the mention,
      and it is the first such sentence. */
  lemma {:induction false} ContainerIsFirstCovering(sentences: seq<Span>, m: Span)
    ensures Container(sentences, m).Ok? <==> exists i :: 0 <= i < |sentences| && Covers(sentences[i], m)
    ensures Container(sentences, m).Err? ==> Container(sentences, m).error == NoContainer
    ensures Container(sentences, m).Ok? ==>
            exists i :: 0 <= i < |sentences| && sentences[i] == Container(sentences, m).value &&
                        Covers(sentences[i], m) &&
                        forall j :: 0 <= j < i ==> !Covers(sentences[j], m)
    decreases |sentences|
  {
    if |sentences| > 0 && !Covers(sentences[0], m) {
      var rest := sentences[1..];
      ContainerIsFirstCovering(rest, m);
      if exists i :: 0 <= i < |sentences| && Covers(sentences[i], m) {
        var i :| 0 <= i < |sentences| && Covers(sentences[i], m);
        assert rest[i - 1] == sentences[i];
      }
      if Container(rest, m).Ok? {
        var i :| 0 <= i < |rest| && rest[i] == Container(rest, m).value && Covers(rest[i], m) &&
                 forall j :: 0 <= j < i ==> !Covers(rest[j], m);
        assert sentences[i + 1] == rest[i];
        forall j | 0 <= j < i + 1 ensures !Covers(sentences[j], m) {
          if j > 0 {
            assert sentences[j] == rest[j - 1];
          }
        }
      }
    }
  }

  // ---------------------------------------------------------------------
  // One mention.

  /** What `writeMention` writes for mention m numbered n in `container`,
      with the spans' offsets translated into the sentence by subtracting
      its begin: the header, then the tagged sentence without the remainder,
      then a newline; a tagging exception leaves the header. */
  ghost function MentionBlock(doc: string, n: int, container: Span, m: Mention): Written {
    var header := Header(n);
    match TaggedCovered(doc, container, LabelMap(m), container.begin, false)
    case Err(e) => Written(header, Some(e))
    case Ok(tagged) => Written(header + tagged + "\n", None)
  }

  /** The block starts with the header; it is written whole exactly when the
      sentence lies in the document and the label map's spans, made
      sentence-local, are in range and do not overlap; then the markers
      enclose literal text that is the sentence text up to the end of the
      last tagged span. */
  lemma MentionBlockCorrect(doc: string, n: int, container: Span, m: Mention)
    ensures |Header(n)| <= |MentionBlock(doc, n, container, m).text|
    ensures MentionBlock(doc, n, container, m).text[..|Header(n)|] == Header(n)
    ensures MentionBlock(doc, n, container, m).failure.None? <==>
            0 <= container.begin <= container.end <= |doc| &&
            WellPlaced(Text.Normalize(doc[container.begin..container.end]), container.begin,
                       LexOrder(LabelMap(m).Keys))
    ensures MentionBlock(doc, n, container, m).failure.None? ==>
            var text := Text.Normalize(doc[container.begin..container.end]);
            var order := LexOrder(LabelMap(m).Keys);
            0 <= Cursor(order, container.begin, |order|) <= |text| &&
            exists ps :: Tag(text, container.begin, LabelMap(m), order, false) == Ok(ps) &&
                         LiteralText(ps) == text[..Cursor(order, container.begin, |order|)] &&
                         MentionBlock(doc, n, container, m).text == Header(n) + Flatten(ps) + "\n"
  {
    var labels := LabelMap(m);
    var order := LexOrder(labels.Keys);
    var header := Header(n);
    var b := MentionBlock(doc, n, container, m);
    if 0 <= container.begin <= container.end <= |doc| {
      var text := Text.Normalize(doc[container.begin..container.end]);
      TagSucceedsIff(text, container.begin, labels, order, false);
      if Tag(text, container.begin, labels, order, false).Ok? {
        var ps := Tag(text, container.begin, labels, order, false).value;
        TagPreservesText(text, container.begin, labels, order, false);
        assert b.text == header + Flatten(ps) + "\n";
        assert b.text[..|header|] == header;
      }
    }
  }

  /** The block of the mention at the counter value n: nothing but the
      container error when no sentence covers it. */
  ghost function BlockFor(doc: string, sentences: seq<Span>, m: Mention, n: int): Written {
    match Container(sentences, m.span)
    case Err(e) => Written("", Some(e))
    case Ok(c) => MentionBlock(doc, n, c, m)
  }

  // ---------------------------------------------------------------------
  // The file.

  /** The blocks of the begin-sorted mentions, numbered from `start`: the
      mention at position k is written with the counter at start + k, since
      every mention before it was written whole and counted once. */
  ghost function Blocks(doc: string, sentences: seq<Span>, sorted: seq<Mention>, start: int): (r: seq<Written>)
    ensures |r| == |sorted|
  {
    seq(|sorted|, k requires 0 <= k < |sorted| => BlockFor(doc, sentences, sorted[k], start + k))
  }

  ghost function Emit(doc: string, sentences: seq<Span>, sorted: seq<Mention>, start: int): Written {
    Chain(Blocks(doc, sentences, sorted, start))
  }

  /** How far `writeMention` advances the counter over the sorted mentions:
      once per mention up to the first failing one, which counts only when
      its container was found. */
  ghost function Calls(doc: string, sentences: seq<Span>, sorted: seq<Mention>, start: int): nat
    decreases |sorted|
  {
    if |sorted| == 0 then 0
    else
      var n := |sorted| - 1;
      var before := sorted[..n];
      if Emit(doc, sentences, before, start).failure.Some? then Calls(doc, sentences, before, start)
      else Calls(doc, sentences, before, start) + (if Container(sentences, sorted[n].span).Ok? then 1 else 0)
  }

  lemma BlocksPrefix(doc: string, sentences: seq<Span>, sorted: seq<Mention>, start: int, k: nat)
    requires k <= |sorted|
    ensures Blocks(doc, sentences, sorted, start)[..k] == Blocks(doc, sentences, sorted[..k], start)
  {
  }

  /** A file written whole counted every mention once. */
  lemma {:induction false} CallsWhole(doc: string, sentences: seq<Span>, sorted: seq<Mention>, start: int)
    requires Emit(doc, sentences, sorted, start).failure.None?
    ensures Calls(doc, sentences, sorted, start) == |sorted|
    ensures forall k :: 0 <= k < |sorted| ==> Container(sentences, sorted[k].span).Ok?
    decreases |sorted|
  {
    if |sorted| > 0 {
      var n := |sorted| - 1;
      var bs := Blocks(doc, sentences, sorted, start);
      ChainSucceedsIff(bs);
      BlocksPrefix(doc, sentences, sorted, start, n);
      assert bs[..n] == Blocks(doc, sentences, sorted[..n], start);
      ChainSucceedsIff(bs[..n]);
      CallsWhole(doc, sentences, sorted[..n], start);
      forall k | 0 <= k < |sorted| ensures Container(sentences, sorted[k].span).Ok? {
        assert bs[k].failure.None?;
      }
    }
  }

  /** The counter never advances past the number of mentions. */
  lemma {:induction false} CallsBound(doc: string, sentences: seq<Span>, sorted: seq<Mention>, start: int)
    ensures Calls(doc, sentences, sorted, start) <= |sorted|
    decreases |sorted|
  {
    if |sorted| > 0 {
      CallsBound(doc, sentences, sorted[..|sorted| - 1], start);
    }
  }

  /** The k-th written block carries number start + k; two written blocks
      never share a number. */
  lemma BlockNumber(doc: string, sentences: seq<Span>, sorted: seq<Mention>, start: int, k: nat)
    requires k < |sorted| && Container(sentences, sorted[k].span).Ok?
    ensures var b := Blocks(doc, sentences, sorted, start)[k];
            |Header(start + k)| <= |b.text| && b.text[..|Header(start + k)|] == Header(start + k)
  {
    var container := Container(sentences, sorted[k].span).value;
    assert Blocks(doc, sentences, sorted, start)[k] == MentionBlock(doc, start + k, container, sorted[k]);
    MentionBlockCorrect(doc, start + k, container, sorted[k]);
  }

  lemma NumbersDistinct(start: int, i: nat, j: nat)
    requires i != j
    ensures Header(start + i) != Header(start + j)
  {
    if Header(start + i) == Header(start + j) {
      HeaderInjective(start + i, start + j);
    }
  }

  /** One more mention: the file so far, then its block if nothing failed. */
  lemma EmitStep(doc: string, sentences: seq<Span>, sorted: seq<Mention>, start: int, k: nat)
    requires k < |sorted|
    requires Emit(doc, sentences, sorted[..k], start).failure.None?
    ensures Emit(doc, sentences, sorted[..k + 1], start) ==
            Written(Emit(doc, sentences, sorted[..k], start).text +
                    BlockFor(doc, sentences, sorted[k], start + k).text,
                    BlockFor(doc, sentences, sorted[k], start + k).failure)
    ensures Calls(doc, sentences, sorted[..k + 1], start) ==
            Calls(doc, sentences, sorted[..k], start) + (if Container(sentences, sorted[k].span).Ok? then 1 else 0)
  {
    var p := sorted[..k + 1];
    assert p[..k] == sorted[..k];
    var bs := Blocks(doc, sentences, p, start);
    assert bs[..k] == Blocks(doc, sentences, sorted[..k], start);
    assert bs[k] == BlockFor(doc, sentences, sorted[k], start + k);
  }

  /** Once a prefix has failed, the rest of the file is never written and
      the counter stops. */
  lemma {:induction false} EmitStopsAt(doc: string, sentences: seq<Span>, sorted: seq<Mention>, start: int, k: nat)
    requires k <= |sorted|
    requires Emit(doc, sentences, sorted[..k], start).failure.Some?
    ensures Emit(doc, sentences, sorted, start) == Emit(doc, sentences, sorted[..k], start)
    ensures Calls(doc, sentences, sorted, start) == Calls(doc, sentences, sorted[..k], start)
    decreases |sorted| - k
  {
    BlocksPrefix(doc, sentences, sorted, start, k);
    ChainFailureSticks(Blocks(doc, sentences, sorted[..k], start), Blocks(doc, sentences, sorted, start));
    if k < |sorted| {
      var n := |sorted| - 1;
      var before := sorted[..n];
      assert before[..k] == sorted[..k];
      EmitStopsAt(doc, sentences, before, start, k);
      assert sorted[..|sorted|] == sorted;
    } else {
      assert sorted[..k] == sorted;
    }
  }

  // ---------------------------------------------------------------------
  // The writer.

  /** The writer with its static field `_current_procedure` as a field:
      numbering starts at 0 and carries over from one document to the next. */
  class Writer {
    var currentProcedure: int

    constructor ()
      ensures currentProcedure == 0
    {
      currentProcedure := 0;
    }

    /** `writeMention`: header with the current number, counter increment,
        label map, tagged sentence (offsets made sentence-local), newline. */
    method WriteMention(doc: string, container: Span, procedureMention: Mention, writer: Sink)
      returns (failure: Option<Error>)
      modifies this, writer
      ensures currentProcedure == old(currentProcedure) + 1
      ensures writer.content ==
              old(writer.content) + MentionBlock(doc, old(currentProcedure), container, procedureMention).text
      ensures failure == MentionBlock(doc, old(currentProcedure), container, procedureMention).failure
    {
      var header := Header(currentProcedure);
      writer.Write(header);
      currentProcedure := currentProcedure + 1;
      var labelToInds := BuildLabelMap(procedureMention);
      var tagged := TagCovered(doc, container, labelToInds, container.begin, false);
      if tagged.Err? {
        return Some(tagged.error);
      }
      writer.Write(tagged.value);
      writer.Write("\n");
      Text.Assoc(old(writer.content), header, tagged.value);
      Text.Assoc(old(writer.content), header + tagged.value, "\n");
      failure := None;
    }

    /** `writeFile`: the mentions sorted by begin (stably), each written into
        its container; the first exception ends the file. */
    method WriteFile(doc: string, sentences: seq<Span>, mentions: seq<Mention>, writer: Sink)
      returns (failure: Option<Error>)
      modifies this, writer
      ensures writer.content ==
              old(writer.content) + Emit(doc, sentences, SortBy(mentions, MentionBegin), old(currentProcedure)).text
      ensures failure == Emit(doc, sentences, SortBy(mentions, MentionBegin), old(currentProcedure)).failure
      ensures currentProcedure ==
              old(currentProcedure) + Calls(doc, sentences, SortBy(mentions, MentionBegin), old(currentProcedure))
    {
      var procedureMentions := SortBy(mentions, MentionBegin);
      ghost var start := currentProcedure;
      var k := 0;
      while k < |procedureMentions|
        invariant 0 <= k <= |procedureMentions|
        invariant currentProcedure == start + k
        invariant Emit(doc, sentences, procedureMentions[..k], start).failure.None?
        invariant writer.content == old(writer.content) + Emit(doc, sentences, procedureMentions[..k], start).text
        invariant Calls(doc, sentences, procedureMentions[..k], start) == k
      {
        var m := procedureMentions[k];
        ghost var done := Emit(doc, sentences, procedureMentions[..k], start);
        EmitStep(doc, sentences, procedureMentions, start, k);
        var container := Container(sentences, m.span);
        if container.Err? {
          failure := Some(container.error);
          assert writer.content == old(writer.content) + Emit(doc, sentences, procedureMentions[..k + 1], start).text;
          EmitStopsAt(doc, sentences, procedureMentions, start, k + 1);
          return;
        }
        failure := WriteMention(doc, container.value, m, writer);
        Text.Assoc(old(writer.content), done.text, MentionBlock(doc, start + k, container.value, m).text);
        if failure.Some? {
          EmitStopsAt(doc, sentences, procedureMentions, start, k + 1);
          return;
        }
        k := k + 1;
      }
      assert procedureMentions[..k] == procedureMentions;
      failure := None;
    }
  }

  // ---------------------------------------------------------------------
  // The offsets the source uses.

  /** The block as the source writes it: the sentence text is indexed with
      the spans' document offsets, untranslated (origin 0). */
  ghost function AbsoluteBlock(doc: string, n: int, container: Span, m: Mention): Written {
    var header := Header(n);
    match TaggedCovered(doc, container, LabelMap(m), 0, false)
    case Err(e) => Written(header, Some(e))
    case Ok(tagged) => Written(header + tagged + "\n", None)
  }

  /** For a sentence that starts at offset 0 the untranslated offsets are the
      sentence-local ones, so the block as written is the block as intended. */
  lemma AgreesAtOrigin(doc: string, n: int, container: Span, m: Mention)
    requires container.begin == 0
    ensures AbsoluteBlock(doc, n, container, m) == MentionBlock(doc, n, container, m)
  {
  }

  lemma LabelMapBare(sp: Span)
    ensures LabelMap(Bare(sp)) == map[sp := "central-dose"]
  {
    var s := Slots(Bare(sp));
    assert s[6..][1..] == [];
    assert s[5..][1..] == s[6..];
    assert s[4..][1..] == s[5..];
    assert s[3..][1..] == s[4..];
    assert s[2..][1..] == s[3..];
    assert s[1..][1..] == s[2..];
    LabelMapKeys(Bare(sp));
    CentralDoseLabel(Bare(sp));
  }

  lemma LexOrderSingle(sp: Span)
    ensures LexOrder({sp}) == [sp]
  {
    assert LexMin({sp}) == sp;
    assert {sp} - {sp} == {};
  }

  /** The sentence "ab" at [2, 4) of the document "xxab", with the mention
      "a" at [2, 3) and no attributes. */
  lemma ExampleFacts()
    ensures Text.Normalize("xxab"[2..4]) == "ab"
    ensures LabelMap(Bare(Span(2, 3))) == map[Span(2, 3) := "central-dose"]
    ensures LexOrder(LabelMap(Bare(Span(2, 3))).Keys) == [Span(2, 3)]
    ensures Text.IntToString(0) == "0"
  {
    LabelMapBare(Span(2, 3));
    LexOrderSingle(Span(2, 3));
    assert map[Span(2, 3) := "central-dose"].Keys == {Span(2, 3)};
  }

  /** The mention "a" at document offsets [2, 3), inside the sentence "ab"
      at [2, 4): indexing the sentence text with the document offsets
      overruns it and the writer throws after the header. */
  lemma AbsoluteOffsetsCounterexample()
    ensures AbsoluteBlock("xxab", 0, Span(2, 4), Bare(Span(2, 3))) == Written("\n0.\t", Some(SliceOutOfRange))
  {
    ExampleFacts();
    var labels := map[Span(2, 3) := "central-dose"];
    var order := [Span(2, 3)];
    assert !StepOk("ab", order, 0, 0);
    TagFails("ab", 0, labels, order, false, 0);
    assert TaggedCovered("xxab", Span(2, 4), labels, 0, false) == Err(SliceOutOfRange);
  }

  /** The sentence text "ab" tagged with the mention's span translated by 2. */
  lemma ExampleTagged()
    ensures Rendered(Tag("ab", 2, map[Span(2, 3) := "central-dose"], [Span(2, 3)], false)) ==
            Ok(OpenMarker("central-dose") + "a" + CloseMarker("central-dose"))
  {
    var labels := map[Span(2, 3) := "central-dose"];
    var order := [Span(2, 3)];
    var tagged := OpenMarker("central-dose") + "a" + CloseMarker("central-dose");
    assert StepOk("ab", order, 2, 0);
    assert StepText("ab", labels, order, 2, 0) == tagged by {
      assert "ab"[0..0] == "" && "ab"[0..1] == "a";
      assert labels[order[0]] == "central-dose";
    }
    FlattenStep("ab", labels, order, 2, 1);
    assert Flatten(TagPieces("ab", labels, order, 2, 0)) == "";
    TagRendered("ab", 2, labels, order, false);
    assert tagged + "" == tagged;
  }

  /** On the same input, translating by the sentence begin tags the mention. */
  lemma CorrectedExample()
    ensures MentionBlock("xxab", 0, Span(2, 4), Bare(Span(2, 3))) ==
            Written(Header(0) + (OpenMarker("central-dose") + "a" + CloseMarker("central-dose")) + "\n", None)
  {
    CorrectedExampleTagged();
  }

  lemma CorrectedExampleTagged()
    ensures TaggedCovered("xxab", Span(2, 4), LabelMap(Bare(Span(2, 3))), 2, false) ==
            Ok(OpenMarker("central-dose") + "a" + CloseMarker("central-dose"))
  {
    ExampleFacts();
    assert SentenceText("xxab", Span(2, 4)) == Ok("ab");
    ExampleTagged();
  }

  /** With offsets translated, a mention whose spans lie inside its sentence
      and do not overlap one another is written whole. */
  lemma MentionBlockSucceeds(doc: string, n: int, container: Span, m: Mention)
    requires 0 <= container.begin <= container.end <= |doc|
    requires forall k :: k in LabelMap(m) ==> Covers(container, k) && k.begin <= k.end
    requires forall a, b :: a in LabelMap(m) && b in LabelMap(m) && LexLess(a, b) ==> a.end <= b.begin
    ensures MentionBlock(doc, n, container, m).failure.None?
  {
    var labels := LabelMap(m);
    var order := LexOrder(labels.Keys);
    var text := Text.Normalize(doc[container.begin..container.end]);
    assert WellPlaced(text, container.begin, order) by {
      forall a, b | 0 <= a < b < |order| ensures order[a].end <= order[b].begin {
        assert LexLess(order[a], order[b]);
      }
      forall a | 0 <= a < |order|
        ensures 0 <= order[a].begin - container.begin <= order[a].end - container.begin <= |text|
      {
        assert order[a] in labels;
      }
    }
    TagSucceedsIff(text, container.begin, labels, order, false);
  }

  /** In a block written whole, the i-th pair of markers encloses the
      document's own text at the i-th span. */
  lemma MentionBlockTagsDocumentText(doc: string, n: int, container: Span, m: Mention, i: nat)
    requires MentionBlock(doc, n, container, m).failure.None?
    requires i < |LexOrder(LabelMap(m).Keys)|
    ensures 0 <= container.begin <= container.end <= |doc|
    ensures Covers(container, LexOrder(LabelMap(m).Keys)[i])
    ensures 0 <= LexOrder(LabelMap(m).Keys)[i].begin <= LexOrder(LabelMap(m).Keys)[i].end <= |doc|
    ensures exists ps :: Tag(Text.Normalize(doc[container.begin..container.end]), container.begin, LabelMap(m),
                             LexOrder(LabelMap(m).Keys), false) == Ok(ps) &&
                         4 * i + 3 < |ps| &&
                         ps[4 * i + 2] == Literal(Text.Normalize(doc[LexOrder(LabelMap(m).Keys)[i].begin..
                                                                     LexOrder(LabelMap(m).Keys)[i].end])) &&
                         MentionBlock(doc, n, container, m).text == Header(n) + Flatten(ps) + "\n"
  {
    var labels := LabelMap(m);
    var order := LexOrder(labels.Keys);
    assert 0 <= container.begin <= container.end <= |doc|;
    var text := Text.Normalize(doc[container.begin..container.end]);
    assert CoveredText(doc, container).value == doc[container.begin..container.end];
    assert Tag(text, container.begin, labels, order, false).Ok?;
    TagTranslatesOffsets(doc, container, labels, order, false, i);
  }
}
