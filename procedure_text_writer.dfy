/** RTProcedureTextWriter: for every sentence, in begin order, and every
    procedure mention the sentence covers, in begin order, a header naming
    the sentence's and the mention's 1-based positions, then the sentence
    text with the mention's spans tagged in sentence-local coordinates, the
    text after the last span included. */
module ProcedureTextWriter {
  import opened Wrappers
  import opened Annotations
  import Text
  import opened LabelMaps
  import opened Tagging
  import opened Output

  /** `String.format("\nParagraph: %d , ProcedureMention: %d\n\n", ...)`. */
  function Header(sentIndex: int, procIndex: int): string {
    "\nParagraph: " + (Text.IntToString(sentIndex) + (" , ProcedureMention: " + (Text.IntToString(procIndex) + "\n\n")))
  }

  /** Two strings that each run up to a stop character they do not contain
      split the same way. */
  lemma SplitAtStop(x: string, s: string, y: string, t: string, stop: char)
    requires stop !in x && stop !in y
    requires |s| > 0 && s[0] == stop && |t| > 0 && t[0] == stop
    requires x + s == y + t
    ensures x == y && s == t
  {
    var k := if |x| <= |y| then |x| else |y|;
    assert (x + s)[k] == (y + t)[k];
    assert |x| == |y|;
    assert x == (x + s)[..|x|];
    assert y == (y + t)[..|y|];
    assert s == (x + s)[|x|..];
    assert t == (y + t)[|y|..];
  }

  lemma NumberHasNoStop(i: int)
    ensures ' ' !in Text.IntToString(i) && '\n' !in Text.IntToString(i)
  {
    var r := Text.IntToString(i);
    forall k | 0 <= k < |r| ensures r[k] != ' ' && r[k] != '\n' {
      assert r[k] == '-' || Text.IsDigit(r[k]);
    }
  }

  lemma StripPrefix(p: string, x: string, y: string)
    requires p + x == p + y
    ensures x == y
  {
    assert x == (p + x)[|p|..];
    assert y == (p + y)[|p|..];
  }

  /** The header names its paragraph and mention numbers unambiguously. */
  lemma HeaderInjective(a: int, b: int, c: int, d: int)
    requires Header(a, b) == Header(c, d)
    ensures a == c && b == d
  {
    var q := " , ProcedureMention: ";
    var A, B, C, D := Text.IntToString(a), Text.IntToString(b), Text.IntToString(c), Text.IntToString(d);
    NumberHasNoStop(a);
    NumberHasNoStop(b);
    NumberHasNoStop(c);
    NumberHasNoStop(d);
    StripPrefix("\nParagraph: ", A + (q + (B + "\n\n")), C + (q + (D + "\n\n")));
    SplitAtStop(A, q + (B + "\n\n"), C, q + (D + "\n\n"), ' ');
    StripPrefix(q, B + "\n\n", D + "\n\n");
    SplitAtStop(B, "\n\n", D, "\n\n", '\n');
    Text.IntToStringInjective(a, c);
    Text.IntToStringInjective(b, d);
  }

  /** `writeMention`: the header, then the tagged sentence and a newline. An
      error in `getCoveredText` or in an append leaves the header written. */
  ghost function MentionBlock(doc: string, sentIndex: int, procIndex: int, sentence: Span, m: Mention): Written {
    var header := Header(sentIndex, procIndex);
    match TaggedCovered(doc, sentence, LabelMap(m), sentence.begin, true)
    case Err(e) => Written(header, Some(e))
    case Ok(tagged) => Written(header + tagged + "\n", None)
  }

  /** A block is written whole exactly when the sentence lies in the document
      and the mention's spans, taken in order and made sentence-local, lie in
      the sentence text one after the other; the text then reads, once its
      markers are deleted, as the sentence with newlines made spaces. */
  lemma MentionBlockCorrect(doc: string, sentIndex: int, procIndex: int, sentence: Span, m: Mention)
    ensures MentionBlock(doc, sentIndex, procIndex, sentence, m).failure.None? <==>
            0 <= sentence.begin <= sentence.end <= |doc| &&
            WellPlaced(Text.Normalize(doc[sentence.begin..sentence.end]), sentence.begin,
                       LexOrder(LabelMap(m).Keys))
    ensures |Header(sentIndex, procIndex)| <= |MentionBlock(doc, sentIndex, procIndex, sentence, m).text|
    ensures MentionBlock(doc, sentIndex, procIndex, sentence, m).text[..|Header(sentIndex, procIndex)|] ==
            Header(sentIndex, procIndex)
    ensures MentionBlock(doc, sentIndex, procIndex, sentence, m).failure.None? ==>
            exists ps :: Tag(Text.Normalize(doc[sentence.begin..sentence.end]), sentence.begin,
                             LabelMap(m), LexOrder(LabelMap(m).Keys), true) == Ok(ps) &&
                         LiteralText(ps) == Text.Normalize(doc[sentence.begin..sentence.end]) &&
                         MentionBlock(doc, sentIndex, procIndex, sentence, m).text ==
                           Header(sentIndex, procIndex) + Flatten(ps) + "\n"
  {
    var labels := LabelMap(m);
    var order := LexOrder(labels.Keys);
    var header := Header(sentIndex, procIndex);
    var b := MentionBlock(doc, sentIndex, procIndex, sentence, m);
    if 0 <= sentence.begin <= sentence.end <= |doc| {
      var text := Text.Normalize(doc[sentence.begin..sentence.end]);
      TagSucceedsIff(text, sentence.begin, labels, order, true);
      if Tag(text, sentence.begin, labels, order, true).Ok? {
        var ps := Tag(text, sentence.begin, labels, order, true).value;
        TagPreservesText(text, sentence.begin, labels, order, true);
        assert b.text == header + Flatten(ps) + "\n";
        assert b.text[..|header|] == header;
      }
    }
  }

  // ---------------------------------------------------------------------
  // Which blocks are written, in which order, with which numbers.

  /** `indexCovered(jCas, Sentence.class, ProcedureMention.class)` for one
      sentence: the mentions it covers, in the store's order. */
  function CoveredBy(sentence: Span, mentions: seq<Mention>): seq<Mention>
    decreases |mentions|
  {
    if |mentions| == 0 then []
    else
      var last := mentions[|mentions| - 1];
      CoveredBy(sentence, mentions[..|mentions| - 1]) + (if Covers(sentence, last.span) then [last] else [])
  }

  /** The covered mentions are exactly the mentions the sentence covers. */
  lemma {:induction false} CoveredByMembers(sentence: Span, mentions: seq<Mention>)
    ensures forall m :: m in CoveredBy(sentence, mentions) <==> m in mentions && Covers(sentence, m.span)
    decreases |mentions|
  {
    if |mentions| > 0 {
      var init := mentions[..|mentions| - 1];
      CoveredByMembers(sentence, init);
      assert mentions == init + [mentions[|mentions| - 1]];
    }
  }

  /** `sent2Procs.get(sentence)`: the covered mentions sorted by begin. */
  function SortedCovered(sentence: Span, mentions: seq<Mention>): seq<Mention> {
    SortBy(CoveredBy(sentence, mentions), MentionBegin)
  }

  /** One `writeMention` call: the numbers it is given, the sentence and the mention. */
  datatype Item = Item(sentIndex: int, procIndex: int, sentence: Span, mention: Mention)

  /** The calls made for the sentence at position i of the sorted list. */
  function SentenceItems(i: nat, sentence: Span, procs: seq<Mention>): seq<Item> {
    seq(|procs|, j requires 0 <= j < |procs| => Item(i + 1, j + 1, sentence, procs[j]))
  }

  /** `sent2Procs`, position by position along the sorted sentences. */
  function Groups(casSentences: seq<Span>, mentions: seq<Mention>): (r: seq<seq<Mention>>)
    ensures |r| == |casSentences|
  {
    seq(|casSentences|, i requires 0 <= i < |casSentences| => SortedCovered(casSentences[i], mentions))
  }

  /** The calls made for the first n sorted sentences. */
  function PlanUpTo(casSentences: seq<Span>, groups: seq<seq<Mention>>, n: nat): seq<Item>
    requires n <= |casSentences| == |groups|
  {
    if n == 0 then []
    else PlanUpTo(casSentences, groups, n - 1) + SentenceItems(n - 1, casSentences[n - 1], groups[n - 1])
  }

  /** `writeFile`'s calls along the sorted sentences `casSentences`, each
      with its covered mentions sorted by begin. */
  function Plan(casSentences: seq<Span>, mentions: seq<Mention>): seq<Item> {
    PlanUpTo(casSentences, Groups(casSentences, mentions), |casSentences|)
  }

  /** A call's numbers are the 1-based positions of its sentence among the
      first n sorted sentences and of its mention in that sentence's group. */
  predicate NumberedWithin(casSentences: seq<Span>, groups: seq<seq<Mention>>, n: nat, it: Item) {
    1 <= it.sentIndex <= n && it.sentIndex <= |casSentences| && it.sentIndex <= |groups| &&
    casSentences[it.sentIndex - 1] == it.sentence &&
    1 <= it.procIndex <= |groups[it.sentIndex - 1]| &&
    groups[it.sentIndex - 1][it.procIndex - 1] == it.mention
  }

  lemma {:induction false} PlanUpToNumbering(casSentences: seq<Span>, groups: seq<seq<Mention>>, n: nat, k: nat)
    requires n <= |casSentences| == |groups|
    requires k < |PlanUpTo(casSentences, groups, n)|
    ensures NumberedWithin(casSentences, groups, n, PlanUpTo(casSentences, groups, n)[k])
    decreases n
  {
    var prev := PlanUpTo(casSentences, groups, n - 1);
    var items := SentenceItems(n - 1, casSentences[n - 1], groups[n - 1]);
    assert PlanUpTo(casSentences, groups, n) == prev + items;
    if k < |prev| {
      PlanUpToNumbering(casSentences, groups, n - 1, k);
      assert PlanUpTo(casSentences, groups, n)[k] == prev[k];
    } else {
      assert PlanUpTo(casSentences, groups, n)[k] == items[k - |prev|];
    }
  }

  /** Each call's numbers are the 1-based positions of its sentence among
      the sorted sentences and of its mention among that sentence's sorted
      covered mentions (`sent2Procs.get(sentence)`, which Groups holds). */
  lemma PlanNumbering(casSentences: seq<Span>, mentions: seq<Mention>, k: nat)
    requires k < |Plan(casSentences, mentions)|
    ensures NumberedWithin(casSentences, Groups(casSentences, mentions), |casSentences|, Plan(casSentences, mentions)[k])
  {
    PlanUpToNumbering(casSentences, Groups(casSentences, mentions), |casSentences|, k);
  }

  /** Every call's mention is one of the document's mentions, and its
      sentence covers it. */
  lemma PlanCovers(casSentences: seq<Span>, mentions: seq<Mention>, k: nat)
    requires k < |Plan(casSentences, mentions)|
    ensures Plan(casSentences, mentions)[k].mention in mentions
    ensures Covers(Plan(casSentences, mentions)[k].sentence, Plan(casSentences, mentions)[k].mention.span)
  {
    PlanNumbering(casSentences, mentions, k);
    var it := Plan(casSentences, mentions)[k];
    GroupMember(casSentences, mentions, it.sentIndex - 1, it.procIndex - 1);
  }

  /** `sent2Procs.get(sentence)` holds mentions the sentence covers. */
  lemma GroupMember(casSentences: seq<Span>, mentions: seq<Mention>, g: nat, j: nat)
    requires g < |casSentences| && j < |Groups(casSentences, mentions)[g]|
    ensures Groups(casSentences, mentions)[g][j] in mentions
    ensures Covers(casSentences[g], Groups(casSentences, mentions)[g][j].span)
  {
    var covered := CoveredBy(casSentences[g], mentions);
    var procs := Groups(casSentences, mentions)[g];
    assert procs == SortBy(covered, MentionBegin);
    SortBySpec(covered, MentionBegin);
    assert procs[j] in multiset(procs);
    assert procs[j] in multiset(covered);
    assert procs[j] in covered;
    CoveredByMembers(casSentences[g], mentions);
  }

  lemma {:induction false} PlanUpToComplete(casSentences: seq<Span>, groups: seq<seq<Mention>>, n: nat, i: nat, j: nat)
    requires i < n <= |casSentences| == |groups|
    requires j < |groups[i]|
    ensures Item(i + 1, j + 1, casSentences[i], groups[i][j]) in PlanUpTo(casSentences, groups, n)
    decreases n
  {
    var items := SentenceItems(n - 1, casSentences[n - 1], groups[n - 1]);
    var prev := PlanUpTo(casSentences, groups, n - 1);
    var x := Item(i + 1, j + 1, casSentences[i], groups[i][j]);
    assert PlanUpTo(casSentences, groups, n) == prev + items;
    if i < n - 1 {
      PlanUpToComplete(casSentences, groups, n - 1, i, j);
      assert x in prev;
    } else {
      assert items[j] == x;
      assert x in items;
    }
  }

  /** Every sorted sentence and every mention it covers get a call, so a
      sentence without mentions is the only thing that writes nothing. */
  lemma PlanComplete(casSentences: seq<Span>, mentions: seq<Mention>, i: nat, j: nat)
    requires i < |casSentences|
    requires j < |SortedCovered(casSentences[i], mentions)|
    ensures Item(i + 1, j + 1, casSentences[i], SortedCovered(casSentences[i], mentions)[j]) in
            Plan(casSentences, mentions)
  {
    PlanUpToComplete(casSentences, Groups(casSentences, mentions), |casSentences|, i, j);
  }

  lemma {:induction false} PlanUpToOrder(casSentences: seq<Span>, groups: seq<seq<Mention>>, n: nat)
    requires n <= |casSentences| == |groups|
    ensures forall k, l :: 0 <= k < l < |PlanUpTo(casSentences, groups, n)| ==>
      var a := PlanUpTo(casSentences, groups, n)[k];
      var b := PlanUpTo(casSentences, groups, n)[l];
      a.sentIndex < b.sentIndex || (a.sentIndex == b.sentIndex && a.procIndex < b.procIndex)
    decreases n
  {
    if n > 0 {
      PlanUpToOrder(casSentences, groups, n - 1);
      var prev := PlanUpTo(casSentences, groups, n - 1);
      var plan := PlanUpTo(casSentences, groups, n);
      forall k, l | 0 <= k < l < |plan|
        ensures plan[k].sentIndex < plan[l].sentIndex ||
                (plan[k].sentIndex == plan[l].sentIndex && plan[k].procIndex < plan[l].procIndex)
      {
        if l < |prev| {
          assert plan[k] == prev[k] && plan[l] == prev[l];
        } else if k < |prev| {
          PlanUpToNumbering(casSentences, groups, n - 1, k);
          assert plan[k] == prev[k];
          assert plan[l].sentIndex == n;
        }
      }
    }
  }

  lemma PlanUpToBegins(casSentences: seq<Span>, groups: seq<seq<Mention>>, n: nat)
    requires n <= |casSentences| == |groups|
    requires forall a, b :: 0 <= a < b < |casSentences| ==> casSentences[a].begin <= casSentences[b].begin
    requires forall g, a, b :: 0 <= g < |groups| && 0 <= a < b < |groups[g]| ==>
               groups[g][a].span.begin <= groups[g][b].span.begin
    ensures forall k, l :: 0 <= k < l < |PlanUpTo(casSentences, groups, n)| ==>
      var a := PlanUpTo(casSentences, groups, n)[k];
      var b := PlanUpTo(casSentences, groups, n)[l];
      a.sentence.begin <= b.sentence.begin &&
      (a.sentIndex < b.sentIndex ||
       (a.sentIndex == b.sentIndex && a.procIndex < b.procIndex && a.mention.span.begin <= b.mention.span.begin))
  {
    var plan := PlanUpTo(casSentences, groups, n);
    PlanUpToOrder(casSentences, groups, n);
    forall k, l | 0 <= k < l < |plan|
      ensures plan[k].sentence.begin <= plan[l].sentence.begin
      ensures plan[k].sentIndex == plan[l].sentIndex ==> plan[k].mention.span.begin <= plan[l].mention.span.begin
    {
      PlanUpToNumbering(casSentences, groups, n, k);
      PlanUpToNumbering(casSentences, groups, n, l);
      if plan[k].sentIndex < plan[l].sentIndex {
        assert casSentences[plan[k].sentIndex - 1].begin <= casSentences[plan[l].sentIndex - 1].begin;
      }
    }
  }

  /** Calls come in sentence order, and within a sentence in mention order;
      both orders are by begin offset. */
  lemma PlanOrder(casSentences: seq<Span>, mentions: seq<Mention>)
    requires SortedBy(casSentences, SpanBegin)
    ensures forall k, l :: 0 <= k < l < |Plan(casSentences, mentions)| ==>
      var a := Plan(casSentences, mentions)[k];
      var b := Plan(casSentences, mentions)[l];
      a.sentence.begin <= b.sentence.begin &&
      (a.sentIndex < b.sentIndex ||
       (a.sentIndex == b.sentIndex && a.procIndex < b.procIndex && a.mention.span.begin <= b.mention.span.begin))
  {
    var groups: seq<seq<Mention>> := Groups(casSentences, mentions);
    forall a, b | 0 <= a < b < |casSentences| ensures casSentences[a].begin <= casSentences[b].begin {
      assert SpanBegin(casSentences[a]) <= SpanBegin(casSentences[b]);
    }
    forall g: int, a: int, b: int | 0 <= g < |groups| && 0 <= a < b < |groups[g]|
      ensures groups[g][a].span.begin <= groups[g][b].span.begin
    {
      SortBySpec(CoveredBy(casSentences[g], mentions), MentionBegin);
      assert SortedBy(groups[g], MentionBegin);
      assert MentionBegin(groups[g][a]) <= MentionBegin(groups[g][b]);
    }
    PlanUpToBegins(casSentences, groups, |casSentences|);
  }

  // ---------------------------------------------------------------------
  // The file.

  ghost function BlockOf(doc: string, it: Item): Written {
    MentionBlock(doc, it.sentIndex, it.procIndex, it.sentence, it.mention)
  }

  ghost function Blocks(doc: string, items: seq<Item>): (r: seq<Written>)
    ensures |r| == |items| && forall k :: 0 <= k < |items| ==> r[k] == BlockOf(doc, items[k])
  {
    Each(BlockWriter(doc), items)
  }

  ghost function BlockWriter(doc: string): Item -> Written {
    it => BlockOf(doc, it)
  }

  /** The file's text: the blocks of the calls in order, up to and including
      the first block that fails (the exception leaves `writeFile`). */
  ghost function Emit(doc: string, items: seq<Item>): Written {
    Chain(Blocks(doc, items))
  }

  lemma BlocksAppend(doc: string, x: seq<Item>, y: seq<Item>)
    ensures Blocks(doc, x + y) == Blocks(doc, x) + Blocks(doc, y)
  {
    EachAppend(BlockWriter(doc), x, y);
  }

  /** Calls made one after the other: the later ones write only when the
      earlier ones finished without an error. */
  lemma EmitConcat(doc: string, x: seq<Item>, y: seq<Item>)
    ensures Emit(doc, x + y) ==
            if Emit(doc, x).failure.Some? then Emit(doc, x)
            else Written(Emit(doc, x).text + Emit(doc, y).text, Emit(doc, y).failure)
  {
    BlocksAppend(doc, x, y);
    ChainConcat(Blocks(doc, x), Blocks(doc, y));
  }

  lemma EmitStep(doc: string, prefix: seq<Item>, it: Item)
    requires Emit(doc, prefix).failure.None?
    ensures Emit(doc, prefix + [it]) ==
            Written(Emit(doc, prefix).text + BlockOf(doc, it).text, BlockOf(doc, it).failure)
  {
    BlocksAppend(doc, prefix, [it]);
    ChainAppendOne(Blocks(doc, prefix), BlockOf(doc, it));
  }

  /** Once a prefix of the calls has failed, the later calls change nothing. */
  lemma EmitFailureSticks(doc: string, prefix: seq<Item>, items: seq<Item>)
    requires |prefix| <= |items| && items[..|prefix|] == prefix
    requires Emit(doc, prefix).failure.Some?
    ensures Emit(doc, items) == Emit(doc, prefix)
  {
    EachPrefix(BlockWriter(doc), items, |prefix|);
    ChainFailureSticks(Blocks(doc, prefix), Blocks(doc, items));
  }

  /** `writeMention`, writing through `writer`. */
  method WriteMention(doc: string, sentIndex: int, localProcIndex: int, container: Span, procedureMention: Mention,
                      writer: Sink)
    returns (failure: Option<Error>)
    modifies writer
    ensures writer.content ==
            old(writer.content) + MentionBlock(doc, sentIndex, localProcIndex, container, procedureMention).text
    ensures failure == MentionBlock(doc, sentIndex, localProcIndex, container, procedureMention).failure
  {
    var header := Header(sentIndex, localProcIndex);
    writer.Write(header);
    var labelToInds := BuildLabelMap(procedureMention);
    var tagged := TagCovered(doc, container, labelToInds, container.begin, true);
    if tagged.Err? {
      return Some(tagged.error);
    }
    writer.Write(tagged.value);
    writer.Write("\n");
    Text.Assoc(old(writer.content), header, tagged.value);
    Text.Assoc(old(writer.content), header + tagged.value, "\n");
    failure := None;
  }

  /** The inner `forEach`: the sentence's sorted mentions, numbered from 1;
      the first failing call ends it. */
  method WriteSentence(doc: string, i: nat, sentence: Span, procs: seq<Mention>, writer: Sink)
    returns (failure: Option<Error>)
    modifies writer
    ensures writer.content == old(writer.content) + Emit(doc, SentenceItems(i, sentence, procs)).text
    ensures failure == Emit(doc, SentenceItems(i, sentence, procs)).failure
  {
    ghost var items := SentenceItems(i, sentence, procs);
    ghost var start := writer.content;
    failure := None;
    var j := 0;
    while j < |procs| && failure.None?
      invariant 0 <= j <= |procs|
      invariant writer.content == start + Emit(doc, items[..j]).text
      invariant failure == Emit(doc, items[..j]).failure
    {
      failure := WriteMentionAt(doc, i, sentence, procs, j, start, writer);
      j := j + 1;
    }
    if failure.Some? {
      EmitFailureSticks(doc, items[..j], items);
    } else {
      assert items[..j] == items;
    }
  }

  /** One pass of the inner `forEach`: mention j's block follows those of
      the mentions before it. */
  method WriteMentionAt(doc: string, i: nat, sentence: Span, procs: seq<Mention>, j: nat, ghost start: string,
                        writer: Sink)
    returns (failure: Option<Error>)
    requires j < |procs|
    requires writer.content == start + Emit(doc, SentenceItems(i, sentence, procs)[..j]).text
    requires Emit(doc, SentenceItems(i, sentence, procs)[..j]).failure.None?
    modifies writer
    ensures writer.content == start + Emit(doc, SentenceItems(i, sentence, procs)[..j + 1]).text
    ensures failure == Emit(doc, SentenceItems(i, sentence, procs)[..j + 1]).failure
  {
    ghost var items := SentenceItems(i, sentence, procs);
    Text.PrefixStep(items, j);
    EmitStep(doc, items[..j], items[j]);
    assert items[j] == Item(i + 1, j + 1, sentence, procs[j]);
    failure := WriteMention(doc, i + 1, j + 1, sentence, procs[j], writer);
    Text.Assoc(start, Emit(doc, items[..j]).text, BlockOf(doc, items[j]).text);
  }

  /** `writeFile`: the sentences sorted by begin, each with its sorted
      covered mentions; the first failing call ends the file. */
  method WriteFile(doc: string, sentences: seq<Span>, mentions: seq<Mention>, writer: Sink)
    returns (failure: Option<Error>)
    modifies writer
    ensures writer.content == old(writer.content) + Emit(doc, Plan(SortBy(sentences, SpanBegin), mentions)).text
    ensures failure == Emit(doc, Plan(SortBy(sentences, SpanBegin), mentions)).failure
  {
    var casSentences := SortBy(sentences, SpanBegin);
    failure := WriteSentences(doc, casSentences, mentions, writer);
  }

  /** The outer `forEach` over the sorted sentences. */
  method WriteSentences(doc: string, casSentences: seq<Span>, mentions: seq<Mention>, writer: Sink)
    returns (failure: Option<Error>)
    modifies writer
    ensures writer.content == old(writer.content) + Emit(doc, Plan(casSentences, mentions)).text
    ensures failure == Emit(doc, Plan(casSentences, mentions)).failure
  {
    ghost var groups := Groups(casSentences, mentions);
    ghost var start := writer.content;
    failure := None;
    var i := 0;
    while i < |casSentences| && failure.None?
      invariant 0 <= i <= |casSentences|
      invariant writer.content == start + Emit(doc, PlanUpTo(casSentences, groups, i)).text
      invariant failure == Emit(doc, PlanUpTo(casSentences, groups, i)).failure
    {
      failure := WriteSentenceAt(doc, casSentences, mentions, groups, i, start, writer);
      i := i + 1;
    }
    if failure.Some? {
      EmitStopsAt(doc, casSentences, groups, i);
    }
  }

  /** One pass of the outer `forEach`: sentence i's calls follow those of
      the sentences before it. */
  method WriteSentenceAt(doc: string, casSentences: seq<Span>, mentions: seq<Mention>, ghost groups: seq<seq<Mention>>,
                         i: nat, ghost start: string, writer: Sink)
    returns (failure: Option<Error>)
    requires groups == Groups(casSentences, mentions) && i < |casSentences|
    requires writer.content == start + Emit(doc, PlanUpTo(casSentences, groups, i)).text
    requires Emit(doc, PlanUpTo(casSentences, groups, i)).failure.None?
    modifies writer
    ensures writer.content == start + Emit(doc, PlanUpTo(casSentences, groups, i + 1)).text
    ensures failure == Emit(doc, PlanUpTo(casSentences, groups, i + 1)).failure
  {
    var procs := SortedCovered(casSentences[i], mentions);
    assert procs == groups[i];
    ghost var done := Emit(doc, PlanUpTo(casSentences, groups, i));
    ghost var part := Emit(doc, SentenceItems(i, casSentences[i], groups[i]));
    SentenceStep(doc, casSentences, groups, i);
    failure := WriteSentence(doc, i, casSentences[i], procs, writer);
    Text.Assoc(start, done.text, part.text);
  }

  /** The calls of sentence i follow those of the sentences before it. */
  lemma SentenceStep(doc: string, casSentences: seq<Span>, groups: seq<seq<Mention>>, i: nat)
    requires i < |casSentences| == |groups|
    requires Emit(doc, PlanUpTo(casSentences, groups, i)).failure.None?
    ensures Emit(doc, PlanUpTo(casSentences, groups, i + 1)) ==
            Written(Emit(doc, PlanUpTo(casSentences, groups, i)).text +
                    Emit(doc, SentenceItems(i, casSentences[i], groups[i])).text,
                    Emit(doc, SentenceItems(i, casSentences[i], groups[i])).failure)
  {
    EmitConcat(doc, PlanUpTo(casSentences, groups, i), SentenceItems(i, casSentences[i], groups[i]));
  }

  /** Once the calls for the first m sentences have failed, the rest of the
      file changes nothing. */
  lemma EmitStopsAt(doc: string, casSentences: seq<Span>, groups: seq<seq<Mention>>, m: nat)
    requires m <= |casSentences| == |groups|
    requires Emit(doc, PlanUpTo(casSentences, groups, m)).failure.Some?
    ensures Emit(doc, PlanUpTo(casSentences, groups, |casSentences|)) == Emit(doc, PlanUpTo(casSentences, groups, m))
  {
    PlanUpToGrows(casSentences, groups, m, |casSentences|);
    EmitFailureSticks(doc, PlanUpTo(casSentences, groups, m), PlanUpTo(casSentences, groups, |casSentences|));
  }

  lemma {:induction false} PlanUpToGrows(casSentences: seq<Span>, groups: seq<seq<Mention>>, m: nat, n: nat)
    requires m <= n <= |casSentences| == |groups|
    ensures |PlanUpTo(casSentences, groups, m)| <= |PlanUpTo(casSentences, groups, n)|
    ensures PlanUpTo(casSentences, groups, n)[..|PlanUpTo(casSentences, groups, m)|] ==
            PlanUpTo(casSentences, groups, m)
    decreases n
  {
    if m < n {
      PlanUpToGrows(casSentences, groups, m, n - 1);
      var a := PlanUpTo(casSentences, groups, m);
      var b := PlanUpTo(casSentences, groups, n - 1);
      var c := PlanUpTo(casSentences, groups, n);
      assert c[..|b|] == b;
      assert c[..|a|] == b[..|a|];
    }
  }
}
