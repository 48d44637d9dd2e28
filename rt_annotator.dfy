/** The Python annotator's bookkeeping around its models: the cleaned token
    text and token-to-offset map of each paragraph (`ctakes_clean`), the
    dose and attribute index sets of a classified paragraph
    (`get_casoid_entities`), and the regrouping of relations into procedure
    mentions whose token indices are mapped back to document offsets
    (`RTAnnotator.process`). The models themselves are inputs. */
module RTAnnotator {
  import opened Wrappers
  import opened Annotations
  import Text

  // ---------------------------------------------------------------------
  // Python's list indexing and string slicing.

  /** `xs[i]` does not raise: negative indices count from the end. */
  predicate PyIndexOk(n: int, i: int) {
    -n <= i < n
  }

  function PyAt<T>(xs: seq<T>, i: int): T
    requires PyIndexOk(|xs|, i)
  {
    if i < 0 then xs[|xs| + i] else xs[i]
  }

  /** A slice bound, clamped into [0, n] after counting a negative bound
      from the end. */
  function PyBound(i: int, n: nat): (r: nat)
    ensures r <= n
  {
    if i < 0 then (if n + i < 0 then 0 else n + i) else if i > n then n else i
  }

  /** `s[b:e]`, which never raises. */
  function PySlice(s: string, b: int, e: int): (r: string)
    ensures |r| <= |s|
    ensures 0 <= b <= e <= |s| ==> r == s[b..e]
  {
    var lo := PyBound(b, |s|);
    var hi := PyBound(e, |s|);
    if lo < hi then s[lo..hi] else ""
  }

  // ---------------------------------------------------------------------
  // `ctakes_clean`: one text and one offset pair per base token of the
  // paragraph, in begin order; newline tokens are written `<cr>`.

  /** `cas.select_covered(T, outer)`: the annotations inside `outer`, in store order. */
  function CoveredSpans(outer: Span, spans: seq<Span>): seq<Span>
    decreases |spans|
  {
    if |spans| == 0 then []
    else
      var n := |spans| - 1;
      CoveredSpans(outer, spans[..n]) + (if Covers(outer, spans[n]) then [spans[n]] else [])
  }

  /** Selection keeps each covered annotation as often as it occurs, and nothing else. */
  lemma {:induction false} CoveredSpansCount(outer: Span, spans: seq<Span>)
    ensures forall x :: multiset(CoveredSpans(outer, spans))[x] ==
                        if Covers(outer, x) then multiset(spans)[x] else 0
    decreases |spans|
  {
    if |spans| > 0 {
      var n := |spans| - 1;
      CoveredSpansCount(outer, spans[..n]);
      assert spans == spans[..n] + [spans[n]];
    }
  }

  lemma {:induction false} CoveredSpansMember(outer: Span, spans: seq<Span>, x: Span)
    ensures x in CoveredSpans(outer, spans) <==> x in spans && Covers(outer, x)
    decreases |spans|
  {
    if |spans| > 0 {
      var n := |spans| - 1;
      CoveredSpansMember(outer, spans[..n], x);
      assert spans == spans[..n] + [spans[n]];
    }
  }

  /** `ctakes_tokenize`: the paragraph's base tokens sorted by begin. */
  function Tokenize(sentence: Span, baseTokens: seq<Span>): seq<Span> {
    SortBy(CoveredSpans(sentence, baseTokens), SpanBegin)
  }

  /** `newline_token_indices`: the offset pairs of the paragraph's newline tokens. */
  function NewlineIndices(sentence: Span, newlineTokens: seq<Span>): set<Span> {
    set t | t in CoveredSpans(sentence, newlineTokens)
  }

  const NewlineText := "<cr>"

  /** The text `ctakes_clean` records for one token. */
  function TokenText(doc: string, newlines: set<Span>, t: Span): string {
    if t !in newlines then PySlice(doc, t.begin, t.end) else NewlineText
  }

  function TokenTexts(doc: string, newlines: set<Span>, tokens: seq<Span>): (r: seq<string>)
    ensures |r| == |tokens|
  {
    seq(|tokens|, k requires 0 <= k < |tokens| => TokenText(doc, newlines, tokens[k]))
  }

  /** `ctakes_clean(cas, sentence)`: the space-joined token texts and the
      token map, built token by token. */
  method CtakesClean(doc: string, sentence: Span, baseTokens: seq<Span>, newlineTokens: seq<Span>)
    returns (cleaned: string, tokenMap: seq<Span>)
    ensures tokenMap == Tokenize(sentence, baseTokens)
    ensures cleaned == Text.Join(TokenTexts(doc, NewlineIndices(sentence, newlineTokens), tokenMap), " ")
  {
    var newlineTokenIndices := NewlineIndices(sentence, newlineTokens);
    var tokens := Tokenize(sentence, baseTokens);
    ghost var texts := TokenTexts(doc, newlineTokenIndices, tokens);
    var baseTokenTexts: seq<string> := [];
    tokenMap := [];
    for k := 0 to |tokens|
      invariant tokenMap == tokens[..k]
      invariant baseTokenTexts == texts[..k]
    {
      var t := tokens[k];
      var text := if t !in newlineTokenIndices then PySlice(doc, t.begin, t.end) else NewlineText;
      assert text == texts[k];
      baseTokenTexts := baseTokenTexts + [text];
      tokenMap := tokenMap + [t];
      assert texts[..k + 1] == texts[..k] + [texts[k]];
      assert tokens[..k + 1] == tokens[..k] + [tokens[k]];
    }
    assert tokens[..|tokens|] == tokens;
    assert texts[..|texts|] == texts;
    cleaned := Text.Join(baseTokenTexts, " ");
  }

  /** The token map lists each base token inside the paragraph once per
      occurrence, in begin order. */
  lemma TokenizeSpec(sentence: Span, baseTokens: seq<Span>)
    ensures forall x :: multiset(Tokenize(sentence, baseTokens))[x] ==
                        if Covers(sentence, x) then multiset(baseTokens)[x] else 0
    ensures forall i, j :: 0 <= i < j < |Tokenize(sentence, baseTokens)| ==>
              Tokenize(sentence, baseTokens)[i].begin <= Tokenize(sentence, baseTokens)[j].begin
  {
    SortBySpec(CoveredSpans(sentence, baseTokens), SpanBegin);
    CoveredSpansCount(sentence, baseTokens);
  }

  /** Token k is written `<cr>` exactly when it is a newline token; any
      other token keeps its covered text. Where each text sits in the
      cleaned string is `Text.JoinLocates`. */
  lemma CleanedTokenText(doc: string, sentence: Span, baseTokens: seq<Span>, newlineTokens: seq<Span>, k: nat)
    requires k < |Tokenize(sentence, baseTokens)|
    ensures var t := Tokenize(sentence, baseTokens)[k];
            TokenTexts(doc, NewlineIndices(sentence, newlineTokens), Tokenize(sentence, baseTokens))[k] ==
              if t in newlineTokens then NewlineText else PySlice(doc, t.begin, t.end)
  {
    var tokenMap := Tokenize(sentence, baseTokens);
    var t := tokenMap[k];
    TokenizeSpec(sentence, baseTokens);
    assert t in multiset(tokenMap);
    assert Covers(sentence, t);
    CoveredSpansMember(sentence, newlineTokens, t);
  }

  // ---------------------------------------------------------------------
  // `get_casoid_entities`: the dose and attribute index sets of one
  // classified paragraph.

  /** Token indices `(first, last)` of a paragraph, both inclusive. */
  datatype TokenSpan = TokenSpan(first: int, last: int)

  /** One innermost visit of the classified paragraph's nested dictionary:
      the window and the dose indices of the outer key, the task, and the
      window-relative indices of the attribute found by that task. */
  datatype Hit = Hit(windowStart: int, windowEnd: int, dose: TokenSpan, task: string, sig: TokenSpan)

  /** An index pair with its task, as the sets hold `(i1, i2, task)`. */
  datatype LabelledSpan = LabelledSpan(first: int, last: int, tag: string)

  /** The task whose entities are the procedures' anchors. */
  const AnchorTask := "rt_dose"

  function AxisEntry(h: Hit): LabelledSpan {
    LabelledSpan(h.dose.first, h.dose.last, AnchorTask)
  }

  /** The attribute's indices shifted from its window to the paragraph. */
  function SigEntry(h: Hit): LabelledSpan {
    LabelledSpan(h.windowStart + h.sig.first, h.windowStart + h.sig.last, h.task)
  }

  function AxisSpans(hits: seq<Hit>): set<LabelledSpan>
    decreases |hits|
  {
    if |hits| == 0 then {} else AxisSpans(hits[..|hits| - 1]) + {AxisEntry(hits[|hits| - 1])}
  }

  function SigSpans(hits: seq<Hit>): set<LabelledSpan>
    decreases |hits|
  {
    if |hits| == 0 then {}
    else
      var h := hits[|hits| - 1];
      SigSpans(hits[..|hits| - 1]) + (if h.task != AnchorTask then {SigEntry(h)} else {})
  }

  /** `get_casoid_entities(casoid)`. */
  method GetCasoidEntities(casoid: seq<Hit>) returns (axisSpans: set<LabelledSpan>, sigSpans: set<LabelledSpan>)
    ensures axisSpans == AxisSpans(casoid)
    ensures sigSpans == SigSpans(casoid)
  {
    axisSpans, sigSpans := {}, {};
    for k := 0 to |casoid|
      invariant axisSpans == AxisSpans(casoid[..k])
      invariant sigSpans == SigSpans(casoid[..k])
    {
      var h := casoid[k];
      var paragraphSig := (h.windowStart + h.sig.first, h.windowStart + h.sig.last);
      axisSpans := axisSpans + {LabelledSpan(h.dose.first, h.dose.last, AnchorTask)};
      if h.task != AnchorTask {
        sigSpans := sigSpans + {LabelledSpan(paragraphSig.0, paragraphSig.1, h.task)};
      }
      assert casoid[..k + 1][..k] == casoid[..k];
    }
    assert casoid[..|casoid|] == casoid;
  }

  /** Every visit puts its dose, labelled `rt_dose`, into the axis set, and
      nothing else is there. */
  lemma {:induction false} AxisSpansMembers(hits: seq<Hit>)
    ensures forall x :: x in AxisSpans(hits) <==> exists h :: h in hits && x == AxisEntry(h)
    ensures forall x :: x in AxisSpans(hits) ==> x.tag == AnchorTask
    decreases |hits|
  {
    if |hits| > 0 {
      var n := |hits| - 1;
      AxisSpansMembers(hits[..n]);
      assert hits == hits[..n] + [hits[n]];
    }
  }

  /** Every visit of a task other than `rt_dose` puts its attribute, shifted
      by the window start, into the attribute set; `rt_dose` visits put
      nothing there. */
  lemma {:induction false} SigSpansMembers(hits: seq<Hit>)
    ensures forall x :: x in SigSpans(hits) <==> exists h :: h in hits && h.task != AnchorTask && x == SigEntry(h)
    ensures forall x :: x in SigSpans(hits) ==> x.tag != AnchorTask
    decreases |hits|
  {
    if |hits| > 0 {
      var n := |hits| - 1;
      SigSpansMembers(hits[..n]);
      assert hits == hits[..n] + [hits[n]];
    }
  }

  /** `paragraph_dose_sets`: the axis set without its labels. */
  function DoseSet(axis: set<LabelledSpan>): set<TokenSpan> {
    set x | x in axis :: TokenSpan(x.first, x.last)
  }

  /** The paragraph's dose set is the set of dose indices of its visits. */
  lemma DoseSetOfCasoid(hits: seq<Hit>)
    ensures forall t :: t in DoseSet(AxisSpans(hits)) <==> exists h :: h in hits && h.dose == t
  {
    AxisSpansMembers(hits);
    forall t | t in DoseSet(AxisSpans(hits)) ensures exists h :: h in hits && h.dose == t {
      var x :| x in AxisSpans(hits) && t == TokenSpan(x.first, x.last);
      var h :| h in hits && x == AxisEntry(h);
    }
    forall t | exists h :: h in hits && h.dose == t ensures t in DoseSet(AxisSpans(hits)) {
      var h :| h in hits && h.dose == t;
      assert AxisEntry(h) in AxisSpans(hits);
    }
  }

  // ---------------------------------------------------------------------
  // Relation grouping: which dose each relation's attribute is attached to.

  /** One relation `(first_span, second_span, {"label": label})`. */
  datatype Relation = Relation(first: TokenSpan, second: TokenSpan, tag: string)

  const DoseDose := "DOSE-DOSE"

  /** `label.split("-")[-1]`: what follows the last '-', or the whole label. */
  function LastSegment(s: string): (r: string)
    ensures '-' !in r
    ensures |r| <= |s| && r == s[|s| - |r|..]
    ensures |r| < |s| ==> s[|s| - |r| - 1] == '-'
    decreases |s|
  {
    if |s| == 0 || s[|s| - 1] == '-' then ""
    else
      var init := s[..|s| - 1];
      var prev := LastSegment(init);
      assert init[|init| - |prev|..] + [s[|s| - 1]] == s[|s| - |prev| - 1..];
      assert |prev| < |init| ==> init[|init| - |prev| - 1] == s[|s| - |prev| - 2];
      prev + [s[|s| - 1]]
  }

  /** `sig_label`: the attribute key of a relation. */
  function SigLabel(tag: string): string {
    Text.ToLower(LastSegment(tag))
  }

  /** One `mention_materials[anchor][attr].append(value)`. */
  datatype Attachment = Attachment(anchor: TokenSpan, attr: string, value: TokenSpan)

  /** The appends one relation makes; a relation touching no dose makes none
      (the source builds an AttributeError there but does not raise it). */
  function Attach(r: Relation, doses: set<TokenSpan>): seq<Attachment> {
    if r.tag == DoseDose then
      [Attachment(r.first, "dose", r.second), Attachment(r.second, "dose", r.first)]
    else if r.first in doses then [Attachment(r.first, SigLabel(r.tag), r.second)]
    else if r.second in doses then [Attachment(r.second, SigLabel(r.tag), r.first)]
    else []
  }

  /** The appends of all relations, in order. */
  function Attachments(rs: seq<Relation>, doses: set<TokenSpan>): seq<Attachment>
    decreases |rs|
  {
    if |rs| == 0 then [] else Attachments(rs[..|rs| - 1], doses) + Attach(rs[|rs| - 1], doses)
  }

  /** An append comes from some relation. */
  lemma {:induction false} AttachmentSource(rs: seq<Relation>, doses: set<TokenSpan>, x: Attachment) returns (j: nat)
    requires x in Attachments(rs, doses)
    ensures j < |rs| && x in Attach(rs[j], doses)
    decreases |rs|
  {
    var n := |rs| - 1;
    if x in Attach(rs[n], doses) {
      j := n;
    } else {
      j := AttachmentSource(rs[..n], doses, x);
      assert rs[..n][j] == rs[j];
    }
  }

  /** Every relation's appends are made. */
  lemma {:induction false} AttachmentMade(rs: seq<Relation>, doses: set<TokenSpan>, j: nat, x: Attachment)
    requires j < |rs| && x in Attach(rs[j], doses)
    ensures x in Attachments(rs, doses)
    decreases |rs|
  {
    var n := |rs| - 1;
    if j < n {
      assert rs[..n][j] == rs[j];
      AttachmentMade(rs[..n], doses, j, x);
    }
  }

  /** Attributes hang on doses: an attribute is attached to a span of the
      dose set, except the `dose` attribute of a DOSE-DOSE relation, which is
      attached to both of its spans, each pointing at the other. A relation
      that is not DOSE-DOSE and touches no dose attaches nothing. */
  lemma AttachmentRules(rs: seq<Relation>, doses: set<TokenSpan>)
    ensures forall x :: x in Attachments(rs, doses) ==>
              x.anchor in doses ||
              (x.attr == "dose" && exists j :: 0 <= j < |rs| && rs[j].tag == DoseDose &&
                                              (x.anchor == rs[j].first || x.anchor == rs[j].second))
    ensures forall j :: 0 <= j < |rs| && rs[j].tag == DoseDose ==>
              Attachment(rs[j].first, "dose", rs[j].second) in Attachments(rs, doses) &&
              Attachment(rs[j].second, "dose", rs[j].first) in Attachments(rs, doses)
    ensures forall j :: 0 <= j < |rs| && rs[j].tag != DoseDose && rs[j].first !in doses && rs[j].second !in doses ==>
              forall x :: x in Attachments(rs, doses) ==> x !in Attach(rs[j], doses)
  {
    forall x | x in Attachments(rs, doses)
      ensures x.anchor in doses ||
              (x.attr == "dose" && exists j :: 0 <= j < |rs| && rs[j].tag == DoseDose &&
                                              (x.anchor == rs[j].first || x.anchor == rs[j].second))
    {
      var j := AttachmentSource(rs, doses, x);
    }
    forall j | 0 <= j < |rs| && rs[j].tag == DoseDose
      ensures Attachment(rs[j].first, "dose", rs[j].second) in Attachments(rs, doses) &&
              Attachment(rs[j].second, "dose", rs[j].first) in Attachments(rs, doses)
    {
      AttachmentMade(rs, doses, j, Attachment(rs[j].first, "dose", rs[j].second));
      AttachmentMade(rs, doses, j, Attachment(rs[j].second, "dose", rs[j].first));
    }
    forall j | 0 <= j < |rs| && rs[j].tag != DoseDose && rs[j].first !in doses && rs[j].second !in doses
      ensures forall x :: x in Attachments(rs, doses) ==> x !in Attach(rs[j], doses)
    {
      assert Attach(rs[j], doses) == [];
    }
  }

  /** The nested defaultdict `mention_materials`: its anchors in insertion
      order, and per anchor the attribute lists. */
  datatype Materials = Materials(anchors: seq<TokenSpan>, attrs: map<TokenSpan, map<string, seq<TokenSpan>>>)

  /** `mention_materials[a.anchor][a.attr].append(a.value)`: missing levels
      are created empty first. */
  function Append(m: Materials, a: Attachment): Materials {
    var inner := if a.anchor in m.attrs then m.attrs[a.anchor] else map[];
    var list := if a.attr in inner then inner[a.attr] else [];
    Materials(if a.anchor in m.attrs then m.anchors else m.anchors + [a.anchor],
              m.attrs[a.anchor := inner[a.attr := list + [a.value]]])
  }

  function Collect(atts: seq<Attachment>): Materials
    decreases |atts|
  {
    if |atts| == 0 then Materials([], map[]) else Append(Collect(atts[..|atts| - 1]), atts[|atts| - 1])
  }

  /** The list under `[anchor][attr]`, empty when there is none. */
  function Lookup(m: Materials, anchor: TokenSpan, attr: string): seq<TokenSpan> {
    if anchor in m.attrs && attr in m.attrs[anchor] then m.attrs[anchor][attr] else []
  }

  /** Reference: the values appended under `[anchor][attr]`, in order. */
  function Values(atts: seq<Attachment>, anchor: TokenSpan, attr: string): seq<TokenSpan>
    decreases |atts|
  {
    if |atts| == 0 then []
    else
      var a := atts[|atts| - 1];
      Values(atts[..|atts| - 1], anchor, attr) + (if a.anchor == anchor && a.attr == attr then [a.value] else [])
  }

  /** Anchors listed once each, exactly the keys, and no key with an empty
      dictionary or an empty list: a defaultdict entry exists only because
      something was appended under it. */
  ghost predicate WellFormed(m: Materials) {
    (forall i, j :: 0 <= i < j < |m.anchors| ==> m.anchors[i] != m.anchors[j]) &&
    (forall k :: k in m.attrs <==> k in m.anchors) &&
    (forall k :: k in m.attrs ==> |m.attrs[k]| > 0) &&
    (forall k, a :: k in m.attrs && a in m.attrs[k] ==> |m.attrs[k][a]| > 0)
  }

  lemma AppendWellFormed(m: Materials, a: Attachment)
    requires WellFormed(m)
    ensures WellFormed(Append(m, a))
  {
    var m' := Append(m, a);
    var inner := if a.anchor in m.attrs then m.attrs[a.anchor] else map[];
    assert a.attr in m'.attrs[a.anchor];
  }

  lemma LookupAppend(m: Materials, a: Attachment, k: TokenSpan, attr: string)
    ensures Lookup(Append(m, a), k, attr) ==
            Lookup(m, k, attr) + (if a.anchor == k && a.attr == attr then [a.value] else [])
  {
  }

  lemma {:induction false} CollectWellFormed(atts: seq<Attachment>)
    ensures WellFormed(Collect(atts))
    decreases |atts|
  {
    if |atts| > 0 {
      CollectWellFormed(atts[..|atts| - 1]);
      AppendWellFormed(Collect(atts[..|atts| - 1]), atts[|atts| - 1]);
    }
  }

  /** Under each anchor and attribute the grouped materials hold exactly
      the values appended there, in order. */
  lemma {:induction false} CollectValues(atts: seq<Attachment>, k: TokenSpan, attr: string)
    ensures Lookup(Collect(atts), k, attr) == Values(atts, k, attr)
    decreases |atts|
  {
    if |atts| > 0 {
      var n := |atts| - 1;
      CollectValues(atts[..n], k, attr);
      LookupAppend(Collect(atts[..n]), atts[n], k, attr);
    }
  }

  /** The anchors are exactly the spans something was attached to. */
  lemma {:induction false} CollectAnchors(atts: seq<Attachment>)
    ensures forall k :: k in Collect(atts).attrs <==> exists i :: 0 <= i < |atts| && atts[i].anchor == k
    decreases |atts|
  {
    if |atts| > 0 {
      var n := |atts| - 1;
      var init := atts[..n];
      CollectAnchors(init);
      assert forall i :: 0 <= i < n ==> init[i] == atts[i];
      forall k | exists i :: 0 <= i < |atts| && atts[i].anchor == k
        ensures k in Collect(atts).attrs
      {
        var i :| 0 <= i < |atts| && atts[i].anchor == k;
        if i < n {
          assert init[i].anchor == k;
        }
      }
    }
  }

  /** The grouping loop of `process` over one paragraph's relations. */
  method GroupRelations(relations: seq<Relation>, doses: set<TokenSpan>) returns (materials: Materials)
    ensures materials == Collect(Attachments(relations, doses))
  {
    materials := Materials([], map[]);
    for i := 0 to |relations|
      invariant materials == Collect(Attachments(relations[..i], doses))
    {
      ghost var before := Attachments(relations[..i], doses);
      assert relations[..i + 1][..i] == relations[..i];
      assert Attachments(relations[..i + 1], doses) == before + Attach(relations[i], doses);
      materials := GroupRelation(before, materials, relations[i], doses);
    }
    assert relations[..|relations|] == relations;
  }

  /** The body of the grouping loop for one relation. */
  method GroupRelation(ghost before: seq<Attachment>, materials: Materials, r: Relation, doses: set<TokenSpan>)
    returns (grouped: Materials)
    requires materials == Collect(before)
    ensures grouped == Collect(before + Attach(r, doses))
  {
    var sigLabel := SigLabel(r.tag);
    if r.tag == DoseDose {
      grouped := Append(Append(materials, Attachment(r.first, "dose", r.second)), Attachment(r.second, "dose", r.first));
      CollectPair(before, Attach(r, doses));
    } else if r.first in doses {
      grouped := Append(materials, Attachment(r.first, sigLabel, r.second));
      CollectSnoc(before, Attach(r, doses));
    } else if r.second in doses {
      grouped := Append(materials, Attachment(r.second, sigLabel, r.first));
      CollectSnoc(before, Attach(r, doses));
    } else {
      grouped := materials;
      assert before + Attach(r, doses) == before;
    }
  }

  lemma CollectPair(atts: seq<Attachment>, pair: seq<Attachment>)
    requires |pair| == 2
    ensures Collect(atts + pair) == Append(Append(Collect(atts), pair[0]), pair[1])
  {
    var mid := atts + [pair[0]];
    assert atts + pair == mid + [pair[1]];
    CollectSnoc(mid, [pair[1]]);
    CollectSnoc(atts, [pair[0]]);
  }

  lemma CollectSnoc(atts: seq<Attachment>, one: seq<Attachment>)
    requires |one| == 1
    ensures Collect(atts + one) == Append(Collect(atts), one[0])
  {
    assert (atts + one)[..|atts|] == atts;
  }

  // ---------------------------------------------------------------------
  // The procedures created for one anchor: as many as its longest
  // attribute list, all on the anchor's offsets, the idx-th value of each
  // list going into the idx-th procedure.

  predicate TokenSpanOk(tokenMap: seq<Span>, t: TokenSpan) {
    PyIndexOk(|tokenMap|, t.first) && PyIndexOk(|tokenMap|, t.last)
  }

  /** `(token_map[first][0], token_map[last][1])`: the end of the last
      token, so the last index is included. */
  function CharSpan(tokenMap: seq<Span>, t: TokenSpan): Span
    requires TokenSpanOk(tokenMap, t)
  {
    Span(PyAt(tokenMap, t.first).begin, PyAt(tokenMap, t.last).end)
  }

  /** Every index in the lists can be looked up in the token map. */
  ghost predicate ListsOk(tokenMap: seq<Span>, lists: map<string, seq<TokenSpan>>) {
    forall a, i :: a in lists && 0 <= i < |lists[a]| ==> TokenSpanOk(tokenMap, lists[a][i])
  }

  /** `procedures[idx].<slot> = add_type(...)` for attribute key `attr`; a
      key the chain of `elif`s does not name sets nothing. */
  function WithAttribute(p: Mention, attr: string, sp: Span): Mention {
    if attr == "boost" then p.(statusChange := Some(sp))
    else if attr == "dose" then p.(totalDose := Some(sp))
    else if attr == "fxno" then p.(dosageCount := Some(sp))
    else if attr == "fxfreq" then p.(frequency := Some(sp))
    else if attr == "site" then p.(anatomicalSite := Some(sp))
    else if attr == "date" then p.(startTime := Some(sp))
    else p
  }

  /** Reference: the idx-th value of the list under `attr`, as offsets. */
  function AttributeAt(tokenMap: seq<Span>, lists: map<string, seq<TokenSpan>>, attr: string, idx: nat): Option<Span>
    requires ListsOk(tokenMap, lists)
  {
    if attr in lists && idx < |lists[attr]| then Some(CharSpan(tokenMap, lists[attr][idx])) else None
  }

  /** Reference: procedure idx with each slot read from the list of its key. */
  function ProcedureAt(tokenMap: seq<Span>, dose: Span, lists: map<string, seq<TokenSpan>>, idx: nat): Mention
    requires ListsOk(tokenMap, lists)
  {
    Mention(dose,
            AttributeAt(tokenMap, lists, "boost", idx),
            AttributeAt(tokenMap, lists, "date", idx),
            AttributeAt(tokenMap, lists, "dose", idx),
            AttributeAt(tokenMap, lists, "fxfreq", idx),
            AttributeAt(tokenMap, lists, "fxno", idx),
            AttributeAt(tokenMap, lists, "site", idx))
  }

  function Procedures(tokenMap: seq<Span>, dose: Span, lists: map<string, seq<TokenSpan>>, num: nat): (r: seq<Mention>)
    requires ListsOk(tokenMap, lists)
    ensures |r| == num
  {
    seq(num, idx requires 0 <= idx < num => ProcedureAt(tokenMap, dose, lists, idx))
  }

  ghost function Pick(keys: set<string>): (a: string)
    requires keys != {}
    ensures a in keys
  {
    var a :| a in keys; a
  }

  /** The longest length among the lists under `keys`. */
  ghost function MaxOver(lists: map<string, seq<TokenSpan>>, keys: set<string>): nat
    decreases keys
  {
    if keys == {} then 0
    else
      var a := Pick(keys);
      var here := if a in lists then |lists[a]| else 0;
      var rest := MaxOver(lists, keys - {a});
      if here > rest then here else rest
  }

  /** `len(max(mention_attributes.values(), key=len))`. */
  ghost function MaxLen(lists: map<string, seq<TokenSpan>>): nat {
    MaxOver(lists, lists.Keys)
  }

  lemma {:induction false} MaxOverSpec(lists: map<string, seq<TokenSpan>>, keys: set<string>)
    requires keys <= lists.Keys
    ensures forall a :: a in keys ==> |lists[a]| <= MaxOver(lists, keys)
    ensures keys != {} ==> exists a :: a in keys && |lists[a]| == MaxOver(lists, keys)
    decreases keys
  {
    if keys != {} {
      MaxOverSpec(lists, keys - {Pick(keys)});
    }
  }

  /** No list is longer than MaxLen, and some list is that long. */
  lemma MaxLenSpec(lists: map<string, seq<TokenSpan>>)
    ensures forall a :: a in lists ==> |lists[a]| <= MaxLen(lists)
    ensures lists != map[] ==> exists a :: a in lists && |lists[a]| == MaxLen(lists)
  {
    MaxOverSpec(lists, lists.Keys);
    if lists != map[] {
      var a :| a in lists;
      assert a in lists.Keys;
    }
  }

  /** What the loop over one anchor's attributes creates: max() over no
      lists raises ValueError, an index outside the token map IndexError. */
  ghost function AnchorProcedures(tokenMap: seq<Span>, anchor: TokenSpan, lists: map<string, seq<TokenSpan>>): Result<seq<Mention>> {
    if lists == map[] then Err(ValueError)
    else if !TokenSpanOk(tokenMap, anchor) || !ListsOk(tokenMap, lists) then Err(IndexError)
    else Ok(Procedures(tokenMap, CharSpan(tokenMap, anchor), lists, MaxLen(lists)))
  }

  /** `num_procedures`, computed by a pass over the lists. */
  method LongestList(lists: map<string, seq<TokenSpan>>) returns (num: nat)
    ensures num == MaxLen(lists)
  {
    num := 0;
    var remaining := lists.Keys;
    while remaining != {}
      invariant remaining <= lists.Keys
      invariant forall a :: a in lists && a !in remaining ==> |lists[a]| <= num
      invariant num == 0 || exists a :: a in lists && a !in remaining && |lists[a]| == num
      decreases remaining
    {
      var a :| a in remaining;
      if |lists[a]| > num {
        num := |lists[a]|;
      }
      remaining := remaining - {a};
    }
    MaxLenSpec(lists);
  }

  /** Setting the next value of one list changes exactly that slot of one procedure. */
  lemma ProceduresStep(tokenMap: seq<Span>, dose: Span, done: map<string, seq<TokenSpan>>, attr: string,
                       l: seq<TokenSpan>, v: TokenSpan, num: nat)
    requires ListsOk(tokenMap, done[attr := l]) && TokenSpanOk(tokenMap, v) && |l| < num
    ensures ListsOk(tokenMap, done[attr := l + [v]])
    ensures Procedures(tokenMap, dose, done[attr := l + [v]], num) ==
            Procedures(tokenMap, dose, done[attr := l], num)[|l| :=
              WithAttribute(Procedures(tokenMap, dose, done[attr := l], num)[|l|], attr, CharSpan(tokenMap, v))]
  {
    var before := done[attr := l];
    var after := done[attr := l + [v]];
    assert ListsOk(tokenMap, after) by {
      forall a, i | a in after && 0 <= i < |after[a]| ensures TokenSpanOk(tokenMap, after[a][i]) {
        if a == attr && i == |l| {
        } else if a == attr {
          assert after[a][i] == before[a][i];
        } else {
          assert after[a] == before[a];
        }
      }
    }
    var p := Procedures(tokenMap, dose, before, num);
    var q := Procedures(tokenMap, dose, after, num);
    forall idx | 0 <= idx < num
      ensures q[idx] == p[|l| := WithAttribute(p[|l|], attr, CharSpan(tokenMap, v))][idx]
    {
      forall b | true ensures AttributeAt(tokenMap, after, b, idx) ==
                              if b == attr && idx == |l| then Some(CharSpan(tokenMap, v))
                              else AttributeAt(tokenMap, before, b, idx)
      {
        if b == attr && idx < |l| {
          assert after[b][idx] == before[b][idx];
        }
      }
    }
  }

  /** An empty list under a key creates nothing. */
  lemma ProceduresEmpty(tokenMap: seq<Span>, dose: Span, done: map<string, seq<TokenSpan>>, attr: string, num: nat)
    requires ListsOk(tokenMap, done) && attr !in done
    ensures ListsOk(tokenMap, done[attr := []])
    ensures Procedures(tokenMap, dose, done[attr := []], num) == Procedures(tokenMap, dose, done, num)
  {
    var with := done[attr := []];
    assert ListsOk(tokenMap, with) by {
      forall a, i | a in with && 0 <= i < |with[a]| ensures TokenSpanOk(tokenMap, with[a][i]) {
        assert a != attr;
      }
    }
    forall idx | 0 <= idx < num
      ensures Procedures(tokenMap, dose, with, num)[idx] == Procedures(tokenMap, dose, done, num)[idx]
    {
      forall b | true ensures AttributeAt(tokenMap, with, b, idx) == AttributeAt(tokenMap, done, b, idx) {
      }
    }
  }

  /** The procedures of one anchor, as `process` creates and fills them. */
  method CreateProcedures(tokenMap: seq<Span>, anchor: TokenSpan, lists: map<string, seq<TokenSpan>>)
    returns (r: Result<seq<Mention>>)
    ensures r == AnchorProcedures(tokenMap, anchor, lists)
  {
    if lists == map[] {
      return Err(ValueError);
    }
    var num := LongestList(lists);
    MaxLenSpec(lists);
    if !TokenSpanOk(tokenMap, anchor) {
      return Err(IndexError);
    }
    var dose := CharSpan(tokenMap, anchor);
    var procedures := seq(num, _ => Bare(dose));
    var remaining := lists.Keys;
    ghost var done: map<string, seq<TokenSpan>> := map[];
    assert procedures == Procedures(tokenMap, dose, done, num);
    while remaining != {}
      invariant remaining <= lists.Keys
      invariant done == map a | a in lists && a !in remaining :: lists[a]
      invariant ListsOk(tokenMap, done)
      invariant procedures == Procedures(tokenMap, dose, done, num)
      decreases remaining
    {
      var attr :| attr in remaining;
      var indsList := lists[attr];
      ProceduresEmpty(tokenMap, dose, done, attr, num);
      for idx := 0 to |indsList|
        invariant ListsOk(tokenMap, done[attr := indsList[..idx]])
        invariant procedures == Procedures(tokenMap, dose, done[attr := indsList[..idx]], num)
      {
        var inds := indsList[idx];
        if !TokenSpanOk(tokenMap, inds) {
          assert !ListsOk(tokenMap, lists) by {
            assert attr in lists && idx < |lists[attr]| && lists[attr][idx] == inds;
          }
          return Err(IndexError);
        }
        ProceduresStep(tokenMap, dose, done, attr, indsList[..idx], inds, num);
        assert indsList[..idx] + [inds] == indsList[..idx + 1];
        procedures := procedures[idx := WithAttribute(procedures[idx], attr, CharSpan(tokenMap, inds))];
      }
      assert indsList[..|indsList|] == indsList;
      done := done[attr := indsList];
      remaining := remaining - {attr};
    }
    assert done == lists;
    r := Ok(procedures);
  }

  /** The attribute keys the chain of `elif`s recognises, in the order of
      the mention's slots statusChange, startTime, totalDose, frequency,
      dosageCount, anatomicalSite. */
  const SlotKeys := ["boost", "date", "dose", "fxfreq", "fxno", "site"]

  /** A successful anchor creates as many procedures as its longest list,
      so every index `idx` used to fill them is in range; each procedure
      spans from the begin of the anchor's first token to the end of its
      last token; slot s of procedure idx holds the offsets of the idx-th
      value under that slot's key when there is one and is empty otherwise. */
  lemma AnchorProceduresSpec(tokenMap: seq<Span>, anchor: TokenSpan, lists: map<string, seq<TokenSpan>>)
    requires AnchorProcedures(tokenMap, anchor, lists).Ok?
    ensures var ps := AnchorProcedures(tokenMap, anchor, lists).value;
            (forall a :: a in lists ==> |lists[a]| <= |ps|) &&
            (exists a :: a in lists && |lists[a]| == |ps|) &&
            (forall idx :: 0 <= idx < |ps| ==>
               ps[idx].span == Span(PyAt(tokenMap, anchor.first).begin, PyAt(tokenMap, anchor.last).end)) &&
            (forall idx, s :: 0 <= idx < |ps| && 0 <= s < 6 ==>
               SlotSpans(ps[idx])[s + 1] ==
                 if SlotKeys[s] in lists && idx < |lists[SlotKeys[s]]|
                 then Some(CharSpan(tokenMap, lists[SlotKeys[s]][idx])) else None)
  {
    MaxLenSpec(lists);
  }

  // ---------------------------------------------------------------------
  // One paragraph: group its relations, then create each anchor's
  // procedures in the order the anchors were first attached to.

  /** `mention_materials[anchor]`, empty for an anchor that is not there. */
  function AttributesOf(m: Materials, anchor: TokenSpan): map<string, seq<TokenSpan>> {
    if anchor in m.attrs then m.attrs[anchor] else map[]
  }

  /** The procedures of the first n steps of a run, in order; the first
      step that raises ends the run with its error. */
  function Sequenced(rs: seq<Result<seq<Mention>>>, n: nat): Result<seq<Mention>>
    requires n <= |rs|
  {
    if n == 0 then Ok([])
    else
      match Sequenced(rs, n - 1)
      case Err(e) => Err(e)
      case Ok(ps) =>
        match rs[n - 1]
        case Err(e) => Err(e)
        case Ok(qs) => Ok(ps + qs)
  }

  /** Once a step has raised, the later steps change nothing. */
  lemma {:induction false} SequencedFailureSticks(rs: seq<Result<seq<Mention>>>, i: nat, n: nat)
    requires i <= n <= |rs| && Sequenced(rs, i).Err?
    ensures Sequenced(rs, n) == Sequenced(rs, i)
    decreases n
  {
    if n > i {
      SequencedFailureSticks(rs, i, n - 1);
    }
  }

  /** A run succeeds exactly when each of its steps does. */
  lemma {:induction false} SequencedSucceedsIff(rs: seq<Result<seq<Mention>>>, n: nat)
    requires n <= |rs|
    ensures Sequenced(rs, n).Ok? <==> forall i :: 0 <= i < n ==> rs[i].Ok?
    decreases n
  {
    if n > 0 {
      SequencedSucceedsIff(rs, n - 1);
    }
  }

  /** What each anchor creates, in the order the anchors were first attached to. */
  ghost function AnchorResults(tokenMap: seq<Span>, m: Materials): (r: seq<Result<seq<Mention>>>)
    ensures |r| == |m.anchors|
  {
    seq(|m.anchors|, i requires 0 <= i < |m.anchors| =>
                       AnchorProcedures(tokenMap, m.anchors[i], AttributesOf(m, m.anchors[i])))
  }

  ghost function ParagraphProcedures(relations: seq<Relation>, tokenMap: seq<Span>, doses: set<TokenSpan>): Result<seq<Mention>> {
    var m := Collect(Attachments(relations, doses));
    Sequenced(AnchorResults(tokenMap, m), |m.anchors|)
  }

  /** The body of `for relations, token_map, ... in zip(...)` for one paragraph. */
  method ProcessParagraph(relations: seq<Relation>, tokenMap: seq<Span>, doses: set<TokenSpan>)
    returns (r: Result<seq<Mention>>)
    ensures r == ParagraphProcedures(relations, tokenMap, doses)
  {
    var materials := GroupRelations(relations, doses);
    r := CreateAnchorsProcedures(tokenMap, materials);
  }

  /** The loop over `mention_materials.items()`. */
  method CreateAnchorsProcedures(tokenMap: seq<Span>, materials: Materials) returns (r: Result<seq<Mention>>)
    ensures r == Sequenced(AnchorResults(tokenMap, materials), |materials.anchors|)
  {
    ghost var rs := AnchorResults(tokenMap, materials);
    var created: seq<Mention> := [];
    for i := 0 to |materials.anchors|
      invariant Sequenced(rs, i) == Ok(created)
    {
      var doseIndices := materials.anchors[i];
      var mentionAttributes := AttributesOf(materials, doseIndices);
      var procedures := CreateProcedures(tokenMap, doseIndices, mentionAttributes);
      assert rs[i] == procedures;
      if procedures.Err? {
        SequencedFailureSticks(rs, i + 1, |rs|);
        return Err(procedures.error);
      }
      created := created + procedures.value;
    }
    r := Ok(created);
  }

  /** In well-formed materials, an anchor succeeds exactly when it and every
      value attached to it can be looked up in the token map. */
  lemma AnchorSucceedsIff(tokenMap: seq<Span>, atts: seq<Attachment>, k: TokenSpan)
    requires k in Collect(atts).attrs
    ensures AnchorProcedures(tokenMap, k, AttributesOf(Collect(atts), k)).Ok? <==>
            TokenSpanOk(tokenMap, k) &&
            forall x :: x in atts && x.anchor == k ==> TokenSpanOk(tokenMap, x.value)
  {
    var m := Collect(atts);
    var lists := AttributesOf(m, k);
    CollectWellFormed(atts);
    assert lists != map[];
    if ListsOk(tokenMap, lists) {
      forall x | x in atts && x.anchor == k ensures TokenSpanOk(tokenMap, x.value) {
        ValuesHold(atts, x);
        CollectValues(atts, k, x.attr);
      }
    } else {
      var a, i :| a in lists && 0 <= i < |lists[a]| && !TokenSpanOk(tokenMap, lists[a][i]);
      CollectValues(atts, k, a);
      ValuesFrom(atts, k, a, i);
    }
  }

  /** An attachment's value is among the values under its anchor and attribute. */
  lemma {:induction false} ValuesHold(atts: seq<Attachment>, x: Attachment)
    requires x in atts
    ensures x.value in Values(atts, x.anchor, x.attr)
    decreases |atts|
  {
    var n := |atts| - 1;
    if atts[n] != x {
      assert x in atts[..n] by {
        assert atts == atts[..n] + [atts[n]];
      }
      ValuesHold(atts[..n], x);
    }
  }

  /** Each value under an anchor and attribute comes from an attachment. */
  lemma {:induction false} ValuesFrom(atts: seq<Attachment>, k: TokenSpan, a: string, i: nat)
    requires i < |Values(atts, k, a)|
    ensures Attachment(k, a, Values(atts, k, a)[i]) in atts
    decreases |atts|
  {
    var n := |atts| - 1;
    var prev := Values(atts[..n], k, a);
    if i < |prev| {
      ValuesFrom(atts[..n], k, a, i);
      assert atts[..n] <= atts;
    } else {
      assert atts[n] == Attachment(k, a, Values(atts, k, a)[i]);
    }
  }

  /** Every dose and attribute index attached in a paragraph is a valid
      index into its token map. */
  ghost predicate AttachedInRange(tokenMap: seq<Span>, relations: seq<Relation>, doses: set<TokenSpan>) {
    forall x :: x in Attachments(relations, doses) ==>
      TokenSpanOk(tokenMap, x.anchor) && TokenSpanOk(tokenMap, x.value)
  }

  /** A paragraph raises exactly when some attached dose or attribute
      indices fall outside its token map (Python's negative indices
      counting from the end); otherwise every anchor's procedures are
      created, in anchor order. */
  lemma ParagraphSucceedsIff(relations: seq<Relation>, tokenMap: seq<Span>, doses: set<TokenSpan>)
    ensures ParagraphProcedures(relations, tokenMap, doses).Ok? <==> AttachedInRange(tokenMap, relations, doses)
  {
    var atts := Attachments(relations, doses);
    var m := Collect(atts);
    var rs := AnchorResults(tokenMap, m);
    CollectWellFormed(atts);
    CollectAnchors(atts);
    SequencedSucceedsIff(rs, |m.anchors|);
    if ParagraphProcedures(relations, tokenMap, doses).Ok? {
      forall x | x in atts ensures TokenSpanOk(tokenMap, x.anchor) && TokenSpanOk(tokenMap, x.value) {
        assert x.anchor in m.anchors;
        var j :| 0 <= j < |m.anchors| && m.anchors[j] == x.anchor;
        assert rs[j].Ok?;
        AnchorSucceedsIff(tokenMap, atts, x.anchor);
      }
    } else {
      var j :| 0 <= j < |m.anchors| && rs[j].Err?;
      var k := m.anchors[j];
      AnchorSucceedsIff(tokenMap, atts, k);
      var i :| 0 <= i < |atts| && atts[i].anchor == k;
      assert atts[i] in atts;
    }
  }

  // ---------------------------------------------------------------------
  // `process`: every paragraph of the document, with the models' output
  // for each paragraph given as input.

  /** What the models return for one paragraph: the casoid (flattened into
      its visits) and the relations after coordination. */
  datatype Classified = Classified(casoid: seq<Hit>, relations: seq<Relation>)

  /** `sent_maps`: the token map of each sentence, in begin order. */
  function TokenMaps(rawSents: seq<Span>, baseTokens: seq<Span>): (r: seq<seq<Span>>)
    ensures |r| == |rawSents|
  {
    seq(|rawSents|, i requires 0 <= i < |rawSents| => Tokenize(rawSents[i], baseTokens))
  }

  /** `paragraph_dose_sets`. */
  function DoseSets(classified: seq<Classified>): (r: seq<set<TokenSpan>>)
    ensures |r| == |classified|
  {
    seq(|classified|, i requires 0 <= i < |classified| => DoseSet(AxisSpans(classified[i].casoid)))
  }

  /** What each of the first n zipped paragraphs creates. */
  ghost function ParagraphResults(sentMaps: seq<seq<Span>>, classified: seq<Classified>, n: nat)
    : (r: seq<Result<seq<Mention>>>)
    requires n <= |sentMaps| && n <= |classified|
    ensures |r| == n
  {
    seq(n, i requires 0 <= i < n => ParagraphProcedures(classified[i].relations, sentMaps[i], DoseSets(classified)[i]))
  }

  /** The procedure mentions `process` adds to the document: unpacking the
      per-sentence results of no sentences, or the per-paragraph entities of
      no paragraphs, raises ValueError; `zip` stops at the shorter input. */
  ghost function Processed(sentences: seq<Span>, baseTokens: seq<Span>, classified: seq<Classified>): Result<seq<Mention>> {
    var rawSents := SortBy(sentences, SpanBegin);
    if |rawSents| == 0 || |classified| == 0 then Err(ValueError)
    else
      var n := if |classified| < |rawSents| then |classified| else |rawSents|;
      Sequenced(ParagraphResults(TokenMaps(rawSents, baseTokens), classified, n), n)
  }

  /** The cleaned text of one sentence. */
  function Cleaned(doc: string, sentence: Span, baseTokens: seq<Span>, newlineTokens: seq<Span>): string {
    Text.Join(TokenTexts(doc, NewlineIndices(sentence, newlineTokens), Tokenize(sentence, baseTokens)), " ")
  }

  /** `map(cas_clean_sent, raw_sents)`: the cleaned texts and token maps. */
  method CleanSentences(doc: string, rawSents: seq<Span>, baseTokens: seq<Span>, newlineTokens: seq<Span>)
    returns (paragraphs: seq<string>, sentMaps: seq<seq<Span>>)
    ensures |paragraphs| == |rawSents|
    ensures forall i :: 0 <= i < |rawSents| ==> paragraphs[i] == Cleaned(doc, rawSents[i], baseTokens, newlineTokens)
    ensures sentMaps == TokenMaps(rawSents, baseTokens)
  {
    ghost var maps := TokenMaps(rawSents, baseTokens);
    paragraphs, sentMaps := [], [];
    for i := 0 to |rawSents|
      invariant |paragraphs| == i
      invariant forall j :: 0 <= j < i ==> paragraphs[j] == Cleaned(doc, rawSents[j], baseTokens, newlineTokens)
      invariant sentMaps == maps[..i]
    {
      var cleaned, tokenMap := CtakesClean(doc, rawSents[i], baseTokens, newlineTokens);
      paragraphs := paragraphs + [cleaned];
      sentMaps := sentMaps + [tokenMap];
    }
    assert sentMaps == maps;
  }

  /** `get_casoid_entities` on every paragraph, then `paragraph_dose_sets`. */
  method ParagraphDoseSets(classified: seq<Classified>) returns (doseSets: seq<set<TokenSpan>>)
    ensures doseSets == DoseSets(classified)
  {
    doseSets := [];
    for i := 0 to |classified|
      invariant doseSets == DoseSets(classified)[..i]
    {
      var axisSpans, sigSpans := GetCasoidEntities(classified[i].casoid);
      doseSets := doseSets + [DoseSet(axisSpans)];
    }
    assert doseSets == DoseSets(classified)[..|classified|];
  }

  /** The loop over the first n zipped paragraphs. */
  method ProcessParagraphs(sentMaps: seq<seq<Span>>, classified: seq<Classified>, doseSets: seq<set<TokenSpan>>, n: nat)
    returns (r: Result<seq<Mention>>)
    requires n <= |sentMaps| && n <= |classified| && doseSets == DoseSets(classified)
    ensures r == Sequenced(ParagraphResults(sentMaps, classified, n), n)
  {
    ghost var rs := ParagraphResults(sentMaps, classified, n);
    var created: seq<Mention> := [];
    for i := 0 to n
      invariant Sequenced(rs, i) == Ok(created)
    {
      var procedures := ProcessParagraph(classified[i].relations, sentMaps[i], doseSets[i]);
      assert rs[i] == procedures;
      if procedures.Err? {
        SequencedFailureSticks(rs, i + 1, n);
        return Err(procedures.error);
      }
      created := created + procedures.value;
    }
    r := Ok(created);
  }

  /** `RTAnnotator.process(cas)`: `paragraphs` are the cleaned sentences
      handed to the models, whose answers are `classified`. */
  method Process(doc: string, sentences: seq<Span>, baseTokens: seq<Span>, newlineTokens: seq<Span>,
                 classified: seq<Classified>)
    returns (paragraphs: seq<string>, r: Result<seq<Mention>>)
    ensures |paragraphs| == |sentences|
    ensures forall i :: 0 <= i < |paragraphs| ==>
              paragraphs[i] == Cleaned(doc, SortBy(sentences, SpanBegin)[i], baseTokens, newlineTokens)
    ensures r == Processed(sentences, baseTokens, classified)
  {
    var rawSents := SortBy(sentences, SpanBegin);
    var sentMaps;
    paragraphs, sentMaps := CleanSentences(doc, rawSents, baseTokens, newlineTokens);
    if |rawSents| == 0 {
      return paragraphs, Err(ValueError);
    }
    var paragraphDoseSets := ParagraphDoseSets(classified);
    if |classified| == 0 {
      return paragraphs, Err(ValueError);
    }
    var n := if |classified| < |rawSents| then |classified| else |rawSents|;
    r := ProcessParagraphs(sentMaps, classified, paragraphDoseSets, n);
  }

  /** A document is processed without raising exactly when it has a
      sentence, the models return a paragraph, and in each zipped paragraph
      every attached index can be looked up in that paragraph's token map. */
  lemma ProcessSucceedsIff(sentences: seq<Span>, baseTokens: seq<Span>, classified: seq<Classified>)
    ensures Processed(sentences, baseTokens, classified).Ok? <==>
            |sentences| > 0 && |classified| > 0 &&
            forall i :: 0 <= i < |sentences| && i < |classified| ==>
              AttachedInRange(Tokenize(SortBy(sentences, SpanBegin)[i], baseTokens),
                              classified[i].relations, DoseSets(classified)[i])
  {
    var rawSents := SortBy(sentences, SpanBegin);
    if |rawSents| > 0 && |classified| > 0 {
      var n := if |classified| < |rawSents| then |classified| else |rawSents|;
      var maps := TokenMaps(rawSents, baseTokens);
      var rs := ParagraphResults(maps, classified, n);
      SequencedSucceedsIff(rs, n);
      forall i | 0 <= i < n
        ensures rs[i].Ok? <==> AttachedInRange(maps[i], classified[i].relations, DoseSets(classified)[i])
      {
        ParagraphSucceedsIff(classified[i].relations, maps[i], DoseSets(classified)[i]);
      }
    }
  }
}
