/** `taggedSentence`: walk the label map's spans in begin order with a cursor
    `previous`, copying the text between spans and wrapping each span in
    `<label>`/`</label>`. The output is modelled as a sequence of pieces
    (literal text, opening marker, closing marker) whose concatenation is the
    string the source builds; markers are not escaped, so the literal text is
    stated on the pieces, not recovered from the string. */
module Tagging {
  import opened Wrappers
  import opened Annotations
  import Text

  datatype Piece = Literal(text: string) | Open(tag: string) | Close(tag: string)

  /** `String.format("<%s>", tag)` and `String.format("</%s>", tag)`. */
  function OpenMarker(tag: string): string { "<" + tag + ">" }

  function CloseMarker(tag: string): string { "</" + tag + ">" }

  function PieceText(p: Piece): string {
    match p
    case Literal(t) => t
    case Open(l) => OpenMarker(l)
    case Close(l) => CloseMarker(l)
  }

  lemma FlattenLast(ps: seq<Piece>)
    requires |ps| > 0
    ensures Flatten(ps) == Flatten(ps[..|ps| - 1]) + PieceText(ps[|ps| - 1])
  {
  }

  /** The string a piece sequence is written as. */
  function Flatten(ps: seq<Piece>): string
    decreases |ps|
  {
    if |ps| == 0 then "" else Flatten(ps[..|ps| - 1]) + PieceText(ps[|ps| - 1])
  }

  /** What is left when every marker is deleted. */
  function LiteralText(ps: seq<Piece>): string
    decreases |ps|
  {
    if |ps| == 0 then ""
    else LiteralText(ps[..|ps| - 1]) + (if ps[|ps| - 1].Literal? then ps[|ps| - 1].text else "")
  }

  /** The markers alone, in emission order. */
  function Markers(ps: seq<Piece>): seq<Piece>
    decreases |ps|
  {
    if |ps| == 0 then []
    else Markers(ps[..|ps| - 1]) + (if ps[|ps| - 1].Literal? then [] else [ps[|ps| - 1]])
  }

  // ---------------------------------------------------------------------
  // The cursor walk, step by step, in coordinates local to the text
  // (a span's offsets minus `origin`).

  /** `previous` before step i: 0, then the local end of the span just tagged. */
  function Cursor(order: seq<Span>, origin: int, i: nat): int
    requires i <= |order|
  {
    if i == 0 then 0 else order[i - 1].end - origin
  }

  /** Both appends of step i are within bounds: `append(text, previous, b)`
      and `append(text, b, e)` need 0 <= previous <= b <= e <= |text|. */
  predicate StepOk(text: string, order: seq<Span>, origin: int, i: nat)
    requires i < |order|
  {
    0 <= Cursor(order, origin, i) <= order[i].begin - origin <= order[i].end - origin <= |text|
  }

  /** Steps 0 .. n - 1 are all within bounds. */
  predicate StepsOk(text: string, order: seq<Span>, origin: int, n: nat)
    requires n <= |order|
  {
    forall i :: 0 <= i < n ==> StepOk(text, order, origin, i)
  }

  predicate AllStepsOk(text: string, order: seq<Span>, origin: int) {
    StepsOk(text, order, origin, |order|)
  }

  /** Every span to tag has a label in the map. */
  predicate Labelled(order: seq<Span>, labels: map<Span, string>) {
    forall k :: k in order ==> k in labels
  }

  /** The four appends of step i. */
  function StepPieces(text: string, labels: map<Span, string>, order: seq<Span>, origin: int, i: nat): seq<Piece>
    requires i < |order| && StepOk(text, order, origin, i) && order[i] in labels
  {
    var b := order[i].begin - origin;
    var e := order[i].end - origin;
    [Literal(text[Cursor(order, origin, i)..b]), Open(labels[order[i]]),
     Literal(text[b..e]), Close(labels[order[i]])]
  }

  /** The pieces of the first n steps. */
  function TagPieces(text: string, labels: map<Span, string>, order: seq<Span>, origin: int, n: nat): seq<Piece>
    requires n <= |order|
    requires StepsOk(text, order, origin, n)
    requires Labelled(order, labels)
  {
    if n == 0 then []
    else TagPieces(text, labels, order, origin, n - 1) + StepPieces(text, labels, order, origin, n - 1)
  }

  /** The tagger over a given span order; `remainder` says whether the text
      after the last span is appended (RTProcedureTextWriter) or not
      (PrettyRTWriter). Any out-of-bounds append is an error. */
  function Tag(text: string, origin: int, labels: map<Span, string>, order: seq<Span>, remainder: bool): Result<seq<Piece>>
    requires Labelled(order, labels)
  {
    if AllStepsOk(text, order, origin) then
      var ps := TagPieces(text, labels, order, origin, |order|);
      var c := Cursor(order, origin, |order|);
      assert |order| > 0 ==> StepOk(text, order, origin, |order| - 1);
      Ok(if remainder then ps + [Literal(text[c..])] else ps)
    else Err(SliceOutOfRange)
  }

  /** `sentence.getCoveredText().replace("\n", " ")`: the text the tagger walks. */
  function SentenceText(doc: string, sentence: Span): (r: Result<string>)
    ensures r.Ok? <==> 0 <= sentence.begin <= sentence.end <= |doc|
    ensures r.Ok? ==> r.value == Text.Normalize(doc[sentence.begin..sentence.end])
    ensures r.Err? ==> r.error == CoveredTextOutOfRange
  {
    match CoveredText(doc, sentence)
    case Ok(t) => Ok(Text.Normalize(t))
    case Err(e) => Err(e)
  }

  function Rendered(r: Result<seq<Piece>>): Result<string> {
    match r
    case Ok(ps) => Ok(Flatten(ps))
    case Err(e) => Err(e)
  }

  // ---------------------------------------------------------------------
  // The order of the spans. The source sorts the HashMap's keys by begin,
  // leaving spans with equal begins in hash order; the model takes them in
  // (begin, end) order, and SuccessfulOrderIsLexOrder shows that no other
  // enumeration of the keys can be tagged without an error.

  predicate LexLess(a: Span, b: Span) {
    a.begin < b.begin || (a.begin == b.begin && a.end < b.end)
  }

  ghost predicate StrictlyLexSorted(s: seq<Span>) {
    forall i, j :: 0 <= i < j < |s| ==> LexLess(s[i], s[j])
  }

  predicate IsLexMin(k: Span, keys: set<Span>) {
    k in keys && forall k' :: k' in keys ==> k' == k || LexLess(k, k')
  }

  lemma {:induction false} LexMinExists(keys: set<Span>)
    requires keys != {}
    ensures exists k :: IsLexMin(k, keys)
    decreases |keys|
  {
    var x :| x in keys;
    if keys != {x} {
      var rest := keys - {x};
      LexMinExists(rest);
      var m :| IsLexMin(m, rest);
      if LexLess(m, x) {
        assert IsLexMin(m, keys);
      } else {
        assert LexLess(x, m);
        forall k' | k' in keys ensures k' == x || LexLess(x, k') {
          if k' != x {
            assert k' in rest;
          }
        }
        assert IsLexMin(x, keys);
      }
    } else {
      assert IsLexMin(x, keys);
    }
  }

  ghost function LexMin(keys: set<Span>): (k: Span)
    requires keys != {}
    ensures IsLexMin(k, keys)
  {
    LexMinExists(keys);
    var k :| IsLexMin(k, keys); k
  }

  lemma LexMinUnique(k: Span, keys: set<Span>)
    requires IsLexMin(k, keys)
    ensures k == LexMin(keys)
  {
    var m := LexMin(keys);
    assert k == m || LexLess(k, m);
    assert k == m || LexLess(m, k);
  }

  /** The keys in strictly increasing (begin, end) order. */
  ghost function LexOrder(keys: set<Span>): (r: seq<Span>)
    ensures StrictlyLexSorted(r)
    ensures forall k :: k in r <==> k in keys
    decreases |keys|
  {
    if keys == {} then []
    else
      var k := LexMin(keys);
      var rest := LexOrder(keys - {k});
      assert forall j :: 0 <= j < |rest| ==> rest[j] in keys - {k};
      [k] + rest
  }

  /** (begin, end) order is in particular an order by begin, as the source's sort produces. */
  lemma LexOrderByBegin(keys: set<Span>)
    ensures SortedBy(LexOrder(keys), SpanBegin)
  {
  }

  lemma HeadIsLexMin(s: seq<Span>)
    requires StrictlyLexSorted(s) && |s| > 0
    ensures forall k :: k in s ==> k == s[0] || LexLess(s[0], k)
  {
    forall k | k in s ensures k == s[0] || LexLess(s[0], k) {
      var i :| 0 <= i < |s| && s[i] == k;
      assert i == 0 || LexLess(s[0], s[i]);
    }
  }

  /** Two strictly sorted sequences with the same elements are the same. */
  lemma {:induction false} StrictlySortedUnique(a: seq<Span>, b: seq<Span>)
    requires StrictlyLexSorted(a) && StrictlyLexSorted(b)
    requires forall k :: k in a <==> k in b
    ensures a == b
    decreases |a|
  {
    assert |a| > 0 ==> a[0] in b;
    assert |b| > 0 ==> b[0] in a;
    if |a| > 0 {
      HeadIsLexMin(a);
      HeadIsLexMin(b);
      forall k ensures k in a[1..] <==> k in b[1..] {
        if k in a[1..] {
          var i :| 1 <= i < |a| && a[i] == k;
          assert LexLess(a[0], k);
          assert k in a && k in b;
          var j :| 0 <= j < |b| && b[j] == k;
          assert j != 0;
          assert b[1..][j - 1] == k;
        }
        if k in b[1..] {
          var j :| 1 <= j < |b| && b[j] == k;
          assert LexLess(b[0], k);
          assert k in b && k in a;
          var i :| 0 <= i < |a| && a[i] == k;
          assert i != 0;
          assert a[1..][i - 1] == k;
        }
      }
      StrictlySortedUnique(a[1..], b[1..]);
      assert a == [a[0]] + a[1..] && b == [b[0]] + b[1..];
    }
  }

  ghost predicate Distinct(s: seq<Span>) {
    forall i, j :: 0 <= i < j < |s| ==> s[i] != s[j]
  }

  lemma {:induction false} ConsecutiveLexLess(s: seq<Span>)
    requires forall i :: 0 <= i < |s| - 1 ==> LexLess(s[i], s[i + 1])
    ensures StrictlyLexSorted(s)
    decreases |s|
  {
    if |s| > 1 {
      ConsecutiveLexLess(s[1..]);
      forall j | 1 <= j < |s| ensures LexLess(s[0], s[j]) {
        assert j == 1 || LexLess(s[1..][0], s[1..][j - 1]);
      }
    }
  }

  /** Whatever order the hash map hands its keys over in, tagging succeeds
      only if that order is the (begin, end) order: a span with the same
      begin as the next one must be empty, and distinct keys then differ in
      their end. So the tie order never changes a successful output. */
  lemma SuccessfulOrderIsLexOrder(text: string, origin: int, order: seq<Span>, keys: set<Span>)
    requires Distinct(order) && (forall k :: k in order <==> k in keys)
    requires AllStepsOk(text, order, origin)
    ensures order == LexOrder(keys)
  {
    forall i | 0 <= i < |order| - 1 ensures LexLess(order[i], order[i + 1]) {
      assert StepOk(text, order, origin, i) && StepOk(text, order, origin, i + 1);
      assert order[i] != order[i + 1];
    }
    ConsecutiveLexLess(order);
    StrictlySortedUnique(order, LexOrder(keys));
  }

  // ---------------------------------------------------------------------
  // What the tagger promises.

  /** The literal text, the markers and the written string of one step. */
  lemma StepShape(before: string, tag: string, inside: string)
    ensures LiteralText([Literal(before), Open(tag), Literal(inside), Close(tag)]) == before + inside
    ensures Markers([Literal(before), Open(tag), Literal(inside), Close(tag)]) == [Open(tag), Close(tag)]
    ensures Flatten([Literal(before), Open(tag), Literal(inside), Close(tag)]) ==
            before + OpenMarker(tag) + inside + CloseMarker(tag)
  {
    var s := [Literal(before), Open(tag), Literal(inside), Close(tag)];
    var s3, s2, s1 := s[..3], s[..2], s[..1];
    assert s3 == [Literal(before), Open(tag), Literal(inside)];
    assert s3[..2] == s2 == [Literal(before), Open(tag)];
    assert s2[..1] == s1 == [Literal(before)];
    assert s1[..0] == [];
    assert LiteralText(s1) == before;
    assert LiteralText(s2) == before;
    assert LiteralText(s3) == before + inside;
    assert Markers(s1) == [];
    assert Markers(s2) == [Open(tag)];
    assert Markers(s3) == [Open(tag)];
    FlattenLast(s1);
    FlattenLast(s2);
    FlattenLast(s3);
    FlattenLast(s);
    assert Flatten(s1) == before;
  }

  lemma {:induction false} FlattenAppend(a: seq<Piece>, b: seq<Piece>)
    ensures Flatten(a + b) == Flatten(a) + Flatten(b)
    decreases |b|
  {
    if |b| > 0 {
      var n := |b| - 1;
      assert (a + b)[..|a + b| - 1] == a + b[..n];
      FlattenAppend(a, b[..n]);
      FlattenLast(a + b);
      FlattenLast(b);
      Text.Assoc(Flatten(a), Flatten(b[..n]), PieceText(b[n]));
    } else {
      assert a + b == a;
    }
  }

  lemma {:induction false} LiteralTextAppend(a: seq<Piece>, b: seq<Piece>)
    ensures LiteralText(a + b) == LiteralText(a) + LiteralText(b)
    decreases |b|
  {
    if |b| > 0 {
      var n := |b| - 1;
      assert (a + b)[..|a + b| - 1] == a + b[..n];
      LiteralTextAppend(a, b[..n]);
    } else {
      assert a + b == a;
    }
  }

  lemma {:induction false} MarkersAppend(a: seq<Piece>, b: seq<Piece>)
    ensures Markers(a + b) == Markers(a) + Markers(b)
    decreases |b|
  {
    if |b| > 0 {
      var n := |b| - 1;
      assert (a + b)[..|a + b| - 1] == a + b[..n];
      MarkersAppend(a, b[..n]);
    } else {
      assert a + b == a;
    }
  }

  /** After n steps the literal pieces spell the text up to the cursor. */
  lemma {:induction false} TagPiecesLiteral(text: string, labels: map<Span, string>, order: seq<Span>, origin: int, n: nat)
    requires n <= |order|
    requires StepsOk(text, order, origin, n)
    requires Labelled(order, labels)
    ensures 0 <= Cursor(order, origin, n) <= |text|
    ensures LiteralText(TagPieces(text, labels, order, origin, n)) == text[..Cursor(order, origin, n)]
    decreases n
  {
    if n > 0 {
      TagPiecesLiteral(text, labels, order, origin, n - 1);
      LiteralStep(text, labels, order, origin, n);
    }
  }

  /** Step n - 1 extends the literal text from its cursor to its span's end. */
  lemma LiteralStep(text: string, labels: map<Span, string>, order: seq<Span>, origin: int, n: nat)
    requires 0 < n <= |order|
    requires StepsOk(text, order, origin, n)
    requires Labelled(order, labels)
    requires 0 <= Cursor(order, origin, n - 1) <= |text|
    requires LiteralText(TagPieces(text, labels, order, origin, n - 1)) == text[..Cursor(order, origin, n - 1)]
    ensures 0 <= Cursor(order, origin, n) <= |text|
    ensures LiteralText(TagPieces(text, labels, order, origin, n)) == text[..Cursor(order, origin, n)]
  {
    assert StepOk(text, order, origin, n - 1);
    var before := TagPieces(text, labels, order, origin, n - 1);
    var step := StepPieces(text, labels, order, origin, n - 1);
    var c := Cursor(order, origin, n - 1);
    var b := order[n - 1].begin - origin;
    var e := order[n - 1].end - origin;
    LiteralTextAppend(before, step);
    StepLiteral(text, labels, order, origin, n - 1);
    SliceJoin(text, c, b, e);
  }

  /** The literal text of one step: the text from the cursor to the span's end. */
  lemma StepLiteral(text: string, labels: map<Span, string>, order: seq<Span>, origin: int, i: nat)
    requires i < |order| && StepOk(text, order, origin, i) && order[i] in labels
    ensures LiteralText(StepPieces(text, labels, order, origin, i)) ==
            text[Cursor(order, origin, i)..order[i].begin - origin] + text[order[i].begin - origin..order[i].end - origin]
  {
    var c := Cursor(order, origin, i);
    var b := order[i].begin - origin;
    var e := order[i].end - origin;
    assert StepPieces(text, labels, order, origin, i) == [Literal(text[c..b]), Open(labels[order[i]]), Literal(text[b..e]), Close(labels[order[i]])];
    StepShape(text[c..b], labels[order[i]], text[b..e]);
  }

  lemma SliceJoin(text: string, c: int, b: int, e: int)
    requires 0 <= c <= b <= e <= |text|
    ensures text[..c] + (text[c..b] + text[b..e]) == text[..e]
  {
    Text.Assoc(text[..c], text[c..b], text[b..e]);
    assert text[..c] + text[c..b] == text[..b];
    assert text[..b] + text[b..e] == text[..e];
  }

  /** Text preservation: deleting the markers from the tagger's output gives
      back the text, whole when the remainder is appended, and up to the
      end of the last tagged span when it is not. */
  lemma TagPreservesText(text: string, origin: int, labels: map<Span, string>, order: seq<Span>, remainder: bool)
    requires Labelled(order, labels)
    requires Tag(text, origin, labels, order, remainder).Ok?
    ensures 0 <= Cursor(order, origin, |order|) <= |text|
    ensures remainder ==> LiteralText(Tag(text, origin, labels, order, remainder).value) == text
    ensures !remainder ==> LiteralText(Tag(text, origin, labels, order, remainder).value) ==
                           text[..Cursor(order, origin, |order|)]
  {
    var n := |order|;
    TagPiecesLiteral(text, labels, order, origin, n);
    if remainder {
      var ps := TagPieces(text, labels, order, origin, n);
      var c := Cursor(order, origin, n);
      LiteralTextAppend(ps, [Literal(text[c..])]);
      assert LiteralText([Literal(text[c..])]) == text[c..];
      assert text[..c] + text[c..] == text;
    }
  }

  /** Every tagged span contributes one opening marker followed by one
      closing marker with its label, in span order. */
  function MarkerPairs(labels: map<Span, string>, order: seq<Span>): seq<Piece>
    requires Labelled(order, labels)
    decreases |order|
  {
    if |order| == 0 then []
    else MarkerPairs(labels, order[..|order| - 1]) +
         [Open(labels[order[|order| - 1]]), Close(labels[order[|order| - 1]])]
  }

  lemma {:induction false} TagPiecesMarkers(text: string, labels: map<Span, string>, order: seq<Span>, origin: int, n: nat)
    requires n <= |order|
    requires StepsOk(text, order, origin, n)
    requires Labelled(order, labels)
    ensures Markers(TagPieces(text, labels, order, origin, n)) == MarkerPairs(labels, order[..n])
    decreases n
  {
    if n > 0 {
      TagPiecesMarkers(text, labels, order, origin, n - 1);
      MarkersStep(text, labels, order, origin, n);
    }
  }

  /** Step n - 1 adds its span's pair of markers. */
  lemma MarkersStep(text: string, labels: map<Span, string>, order: seq<Span>, origin: int, n: nat)
    requires 0 < n <= |order|
    requires StepsOk(text, order, origin, n)
    requires Labelled(order, labels)
    requires Markers(TagPieces(text, labels, order, origin, n - 1)) == MarkerPairs(labels, order[..n - 1])
    ensures Markers(TagPieces(text, labels, order, origin, n)) == MarkerPairs(labels, order[..n])
  {
    assert StepOk(text, order, origin, n - 1);
    var before := TagPieces(text, labels, order, origin, n - 1);
    var step := StepPieces(text, labels, order, origin, n - 1);
    MarkersAppend(before, step);
    StepMarkers(text, labels, order, origin, n - 1);
    assert MarkerPairs(labels, order[..n]) ==
           MarkerPairs(labels, order[..n - 1]) + [Open(labels[order[n - 1]]), Close(labels[order[n - 1]])] by {
      Text.PrefixOfPrefix(order, n - 1, n);
    }
  }

  /** One step's markers: its span's opening and closing marker. */
  lemma StepMarkers(text: string, labels: map<Span, string>, order: seq<Span>, origin: int, i: nat)
    requires i < |order| && StepOk(text, order, origin, i) && order[i] in labels
    ensures Markers(StepPieces(text, labels, order, origin, i)) == [Open(labels[order[i]]), Close(labels[order[i]])]
  {
    var c := Cursor(order, origin, i);
    var b := order[i].begin - origin;
    var e := order[i].end - origin;
    assert StepPieces(text, labels, order, origin, i) == [Literal(text[c..b]), Open(labels[order[i]]), Literal(text[b..e]), Close(labels[order[i]])];
    StepShape(text[c..b], labels[order[i]], text[b..e]);
  }

  lemma TagMarkers(text: string, origin: int, labels: map<Span, string>, order: seq<Span>, remainder: bool)
    requires Labelled(order, labels)
    requires Tag(text, origin, labels, order, remainder).Ok?
    ensures Markers(Tag(text, origin, labels, order, remainder).value) == MarkerPairs(labels, order)
  {
    var n := |order|;
    TagPiecesMarkers(text, labels, order, origin, n);
    TagPiecesLiteral(text, labels, order, origin, n);
    assert order[..n] == order;
    if remainder {
      var ps := TagPieces(text, labels, order, origin, n);
      MarkersAppend(ps, [Literal(text[Cursor(order, origin, n)..])]);
    }
  }

  /** Offset translation: the text between the i-th pair of markers is the
      text at the span's offsets minus the origin. */
  lemma {:induction false} TagPiecesEnclose(text: string, labels: map<Span, string>, order: seq<Span>, origin: int, n: nat, i: nat)
    requires n <= |order| && i < n
    requires StepsOk(text, order, origin, n)
    requires Labelled(order, labels)
    ensures StepOk(text, order, origin, i)
    ensures |TagPieces(text, labels, order, origin, n)| == 4 * n
    ensures TagPieces(text, labels, order, origin, n)[4 * i + 1] == Open(labels[order[i]])
    ensures TagPieces(text, labels, order, origin, n)[4 * i + 2] ==
            Literal(text[order[i].begin - origin..order[i].end - origin])
    ensures TagPieces(text, labels, order, origin, n)[4 * i + 3] == Close(labels[order[i]])
    decreases n
  {
    if i < n - 1 {
      TagPiecesEnclose(text, labels, order, origin, n - 1, i);
    } else if n > 1 {
      TagPiecesEnclose(text, labels, order, origin, n - 1, 0);
    }
  }

  lemma TagEncloses(text: string, origin: int, labels: map<Span, string>, order: seq<Span>, remainder: bool, i: nat)
    requires Labelled(order, labels)
    requires Tag(text, origin, labels, order, remainder).Ok? && i < |order|
    ensures StepOk(text, order, origin, i)
    ensures 4 * i + 3 < |Tag(text, origin, labels, order, remainder).value|
    ensures Tag(text, origin, labels, order, remainder).value[4 * i + 1] == Open(labels[order[i]])
    ensures Tag(text, origin, labels, order, remainder).value[4 * i + 2] ==
            Literal(text[order[i].begin - origin..order[i].end - origin])
    ensures Tag(text, origin, labels, order, remainder).value[4 * i + 3] == Close(labels[order[i]])
  {
    TagPiecesEnclose(text, labels, order, origin, |order|, i);
  }

  /** The failure condition, stated without the cursor: tagging succeeds
      exactly when every span lies, after translation, inside the text with
      begin <= end, and each span ends before the next one begins. */
  ghost predicate WellPlaced(text: string, origin: int, order: seq<Span>) {
    (forall i :: 0 <= i < |order| ==> 0 <= order[i].begin - origin <= order[i].end - origin <= |text|) &&
    (forall i, j :: 0 <= i < j < |order| ==> order[i].end <= order[j].begin)
  }

  lemma {:induction false} StepsOkOrdered(text: string, order: seq<Span>, origin: int, i: nat, j: nat)
    requires AllStepsOk(text, order, origin)
    requires i < j < |order|
    ensures order[i].end <= order[j].begin
    decreases j - i
  {
    assert StepOk(text, order, origin, j);
    if j > i + 1 {
      StepsOkOrdered(text, order, origin, i, j - 1);
      assert StepOk(text, order, origin, j - 1);
    }
  }

  lemma TagSucceedsIff(text: string, origin: int, labels: map<Span, string>, order: seq<Span>, remainder: bool)
    requires Labelled(order, labels)
    ensures Tag(text, origin, labels, order, remainder).Ok? <==> WellPlaced(text, origin, order)
  {
    if AllStepsOk(text, order, origin) {
      forall i, j | 0 <= i < j < |order| ensures order[i].end <= order[j].begin {
        StepsOkOrdered(text, order, origin, i, j);
      }
      forall i | 0 <= i < |order|
        ensures 0 <= order[i].begin - origin <= order[i].end - origin <= |text|
      {
        assert StepOk(text, order, origin, i);
      }
    }
    if WellPlaced(text, origin, order) {
      forall i | 0 <= i < |order| ensures StepOk(text, order, origin, i) {
        if i > 0 {
          assert order[i - 1].end <= order[i].begin;
        }
      }
    }
  }

  /** Where the text is a sentence's newline-normalised covered text and the
      origin is the sentence's begin, a span that tags without error lies
      inside the sentence, and the tagged text is the document's own text at
      that span. */
  lemma TagTranslatesOffsets(doc: string, sentence: Span, labels: map<Span, string>, order: seq<Span>, remainder: bool, i: nat)
    requires CoveredText(doc, sentence).Ok?
    requires Labelled(order, labels)
    requires i < |order|
    requires Tag(Text.Normalize(CoveredText(doc, sentence).value), sentence.begin, labels, order, remainder).Ok?
    ensures 4 * i + 3 < |Tag(Text.Normalize(CoveredText(doc, sentence).value), sentence.begin, labels, order, remainder).value|
    ensures Covers(sentence, order[i])
    ensures 0 <= order[i].begin <= order[i].end <= |doc|
    ensures Tag(Text.Normalize(CoveredText(doc, sentence).value), sentence.begin, labels, order, remainder).value[4 * i + 2]
            == Literal(Text.Normalize(doc[order[i].begin..order[i].end]))
  {
    var covered := CoveredText(doc, sentence).value;
    var text := Text.Normalize(covered);
    TagEncloses(text, sentence.begin, labels, order, remainder, i);
    TagSucceedsIff(text, sentence.begin, labels, order, remainder);
    var b := order[i].begin - sentence.begin;
    var e := order[i].end - sentence.begin;
    Text.NormalizeSlice(covered, b, e);
    assert covered == doc[sentence.begin..sentence.end];
    assert covered[b..e] == doc[order[i].begin..order[i].end];
  }

  // ---------------------------------------------------------------------
  // The executable tagger.

  /** The text from the cursor to the span, the opening marker, the span's
      text and the closing marker. */
  function StepString(text: string, from: int, b: int, e: int, tag: string): string
    requires 0 <= from <= b <= e <= |text|
  {
    text[from..b] + OpenMarker(tag) + text[b..e] + CloseMarker(tag)
  }

  /** The string step i writes. */
  function StepText(text: string, labels: map<Span, string>, order: seq<Span>, origin: int, i: nat): string
    requires i < |order| && StepOk(text, order, origin, i) && order[i] in labels
  {
    StepString(text, Cursor(order, origin, i), order[i].begin - origin, order[i].end - origin, labels[order[i]])
  }

  lemma StepPiecesText(text: string, labels: map<Span, string>, order: seq<Span>, origin: int, i: nat)
    requires i < |order| && StepOk(text, order, origin, i) && order[i] in labels
    ensures Flatten(StepPieces(text, labels, order, origin, i)) == StepText(text, labels, order, origin, i)
  {
    var c := Cursor(order, origin, i);
    var b := order[i].begin - origin;
    var e := order[i].end - origin;
    var tag := labels[order[i]];
    assert StepPieces(text, labels, order, origin, i) == [Literal(text[c..b]), Open(tag), Literal(text[b..e]), Close(tag)];
    assert StepText(text, labels, order, origin, i) == text[c..b] + OpenMarker(tag) + text[b..e] + CloseMarker(tag);
    StepShape(text[c..b], tag, text[b..e]);
  }

  lemma FlattenStep(text: string, labels: map<Span, string>, order: seq<Span>, origin: int, n: nat)
    requires 0 < n <= |order|
    requires StepsOk(text, order, origin, n)
    requires Labelled(order, labels)
    ensures StepOk(text, order, origin, n - 1)
    ensures Flatten(TagPieces(text, labels, order, origin, n)) ==
            Flatten(TagPieces(text, labels, order, origin, n - 1)) + StepText(text, labels, order, origin, n - 1)
  {
    TagPiecesUnfold(text, labels, order, origin, n);
    StepPiecesText(text, labels, order, origin, n - 1);
    FlattenJoin(TagPieces(text, labels, order, origin, n), TagPieces(text, labels, order, origin, n - 1),
                StepPieces(text, labels, order, origin, n - 1), StepText(text, labels, order, origin, n - 1));
  }

  lemma TagPiecesUnfold(text: string, labels: map<Span, string>, order: seq<Span>, origin: int, n: nat)
    requires 0 < n <= |order|
    requires StepsOk(text, order, origin, n)
    requires Labelled(order, labels)
    ensures StepsOk(text, order, origin, n - 1) && StepOk(text, order, origin, n - 1) && order[n - 1] in labels
    ensures TagPieces(text, labels, order, origin, n) ==
            TagPieces(text, labels, order, origin, n - 1) + StepPieces(text, labels, order, origin, n - 1)
  {
    assert StepOk(text, order, origin, n - 1);
  }

  lemma FlattenJoin(whole: seq<Piece>, before: seq<Piece>, step: seq<Piece>, t: string)
    requires whole == before + step && Flatten(step) == t
    ensures Flatten(whole) == Flatten(before) + t
  {
    FlattenAppend(before, step);
  }

  /** The string the first n steps write, one step's text after another. */
  function TagText(text: string, labels: map<Span, string>, order: seq<Span>, origin: int, n: nat): string
    requires n <= |order|
    requires StepsOk(text, order, origin, n)
    requires Labelled(order, labels)
  {
    if n == 0 then "" else TagText(text, labels, order, origin, n - 1) + StepText(text, labels, order, origin, n - 1)
  }

  /** The steps' text is the string their pieces are written as. */
  lemma {:induction false} TagTextFlattens(text: string, labels: map<Span, string>, order: seq<Span>, origin: int, n: nat)
    requires n <= |order|
    requires StepsOk(text, order, origin, n)
    requires Labelled(order, labels)
    ensures Flatten(TagPieces(text, labels, order, origin, n)) == TagText(text, labels, order, origin, n)
    decreases n
  {
    if n > 0 {
      TagTextFlattens(text, labels, order, origin, n - 1);
      TagTextStep(text, labels, order, origin, n);
    }
  }

  lemma TagTextStep(text: string, labels: map<Span, string>, order: seq<Span>, origin: int, n: nat)
    requires 0 < n <= |order|
    requires StepsOk(text, order, origin, n)
    requires Labelled(order, labels)
    requires Flatten(TagPieces(text, labels, order, origin, n - 1)) == TagText(text, labels, order, origin, n - 1)
    ensures Flatten(TagPieces(text, labels, order, origin, n)) == TagText(text, labels, order, origin, n)
  {
    FlattenStep(text, labels, order, origin, n);
  }

  lemma Assoc4(f: string, a: string, b: string, c: string, d: string)
    ensures f + (a + b + c + d) == f + a + b + c + d
  {
    Text.Assoc(f, a + b + c, d);
    Text.Assoc(f, a + b, c);
    Text.Assoc(f, a, b);
  }

  /** The least remaining key comes first. */
  lemma LexOrderStep(k: Span, keys: set<Span>)
    requires IsLexMin(k, keys)
    ensures k in keys && LexOrder(keys) == [k] + LexOrder(keys - {k})
  {
    LexMinUnique(k, keys);
  }

  /** The label map's keys in (begin, end) order. */
  method OrderedSpans(keys: set<Span>) returns (order: seq<Span>)
    ensures order == LexOrder(keys)
  {
    var remaining := keys;
    order := [];
    while remaining != {}
      invariant order + LexOrder(remaining) == LexOrder(keys)
      decreases |remaining|
    {
      LexMinExists(remaining);
      var k :| IsLexMin(k, remaining);
      LexOrderStep(k, remaining);
      Text.Assoc(order, [k], LexOrder(remaining - {k}));
      order := order + [k];
      remaining := remaining - {k};
    }
  }

  /** `taggedSentence`: the label map's spans are sorted, then tagged in
      that order. */
  method TaggedSentence(text: string, origin: int, labels: map<Span, string>, remainder: bool)
    returns (r: Result<string>)
    ensures r == Rendered(Tag(text, origin, labels, LexOrder(labels.Keys), remainder))
  {
    var order := OrderedSpans(labels.Keys);
    r := TagInOrder(text, origin, labels, order, remainder);
  }

  /** One step of the loop: `append(text, previous, begin)`, the opening
      marker, `append(text, begin, end)` and the closing marker; an append
      whose bounds Java rejects ends the step with nothing. */
  method AppendStep(out: string, text: string, labels: map<Span, string>, order: seq<Span>, origin: int, i: nat,
                    previous: int)
    returns (r: Option<string>)
    requires i < |order| && order[i] in labels && previous == Cursor(order, origin, i)
    ensures r.Some? <==> StepOk(text, order, origin, i)
    ensures r.Some? ==> r.value == out + StepText(text, labels, order, origin, i)
  {
    var tag := labels[order[i]];
    var b := order[i].begin - origin;
    var e := order[i].end - origin;
    if !(0 <= previous <= b <= |text|) {
      return None;
    }
    var s := out + text[previous..b];
    s := s + OpenMarker(tag);
    if !(0 <= b <= e <= |text|) {
      return None;
    }
    s := s + text[b..e];
    s := s + CloseMarker(tag);
    Assoc4(out, text[previous..b], OpenMarker(tag), text[b..e], CloseMarker(tag));
    r := Some(s);
  }

  lemma TagFails(text: string, origin: int, labels: map<Span, string>, order: seq<Span>, remainder: bool, i: nat)
    requires Labelled(order, labels)
    requires i < |order| && !StepOk(text, order, origin, i)
    ensures Rendered(Tag(text, origin, labels, order, remainder)) == Err(SliceOutOfRange)
  {
  }

  lemma TagRendered(text: string, origin: int, labels: map<Span, string>, order: seq<Span>, remainder: bool)
    requires Labelled(order, labels)
    requires AllStepsOk(text, order, origin)
    ensures 0 <= Cursor(order, origin, |order|) <= |text|
    ensures Rendered(Tag(text, origin, labels, order, remainder)) ==
            Ok(Flatten(TagPieces(text, labels, order, origin, |order|)) +
               (if remainder then text[Cursor(order, origin, |order|)..] else ""))
  {
    var ps := TagPieces(text, labels, order, origin, |order|);
    TagPiecesLiteral(text, labels, order, origin, |order|);
    var c := Cursor(order, origin, |order|);
    if remainder {
      FlattenLast(ps + [Literal(text[c..])]);
      assert (ps + [Literal(text[c..])])[..|ps|] == ps;
    } else {
      assert Flatten(ps) + "" == Flatten(ps);
    }
  }

  /** A sentence's covered text, newlines made spaces, tagged with `labels`
      in (begin, end) order; `origin` is what span offsets are translated by. */
  ghost function TaggedCovered(doc: string, sentence: Span, labels: map<Span, string>, origin: int, remainder: bool)
    : Result<string>
  {
    match SentenceText(doc, sentence)
    case Err(e) => Err(e)
    case Ok(text) => Rendered(Tag(text, origin, labels, LexOrder(labels.Keys), remainder))
  }

  /** `taggedSentence(sentence, labelToInds)`: `getCoveredText` (which throws
      outside the document), the newline replacement, then the tagger. */
  method TagCovered(doc: string, sentence: Span, labels: map<Span, string>, origin: int, remainder: bool)
    returns (r: Result<string>)
    ensures r == TaggedCovered(doc, sentence, labels, origin, remainder)
  {
    if !(0 <= sentence.begin <= sentence.end <= |doc|) {
      return Err(CoveredTextOutOfRange);
    }
    var text := Text.Normalize(doc[sentence.begin..sentence.end]);
    r := TaggedSentence(text, origin, labels, remainder);
  }

  /** The loop of `taggedSentence`: a StringBuilder filled span by span while
      the cursor `previous` advances to each span's local end; Java's bounds
      checks on `append` become an error result. */
  method TagInOrder(text: string, origin: int, labels: map<Span, string>, order: seq<Span>, remainder: bool)
    returns (r: Result<string>)
    requires Labelled(order, labels)
    ensures r == Rendered(Tag(text, origin, labels, order, remainder))
  {
    var out, previous := TagLoop(text, origin, labels, order);
    if out.None? {
      return Err(SliceOutOfRange);
    }
    TagTextFlattens(text, labels, order, origin, |order|);
    TagRendered(text, origin, labels, order, remainder);
    if remainder {
      r := Ok(out.value + text[previous..]);
    } else {
      r := Ok(out.value + "");
    }
  }

  /** The loop over the ordered spans: it writes every step's pieces, or
      stops at the first step whose appends are out of bounds. */
  method TagLoop(text: string, origin: int, labels: map<Span, string>, order: seq<Span>)
    returns (out: Option<string>, previous: int)
    requires Labelled(order, labels)
    ensures out.Some? <==> AllStepsOk(text, order, origin)
    ensures out.Some? ==> out.value == TagText(text, labels, order, origin, |order|) &&
                          previous == Cursor(order, origin, |order|)
  {
    var written := "";
    previous := 0;
    var i := 0;
    while i < |order|
      invariant 0 <= i <= |order|
      invariant StepsOk(text, order, origin, i)
      invariant previous == Cursor(order, origin, i)
      invariant written == TagText(text, labels, order, origin, i)
    {
      var step := TagStepAt(written, text, labels, order, origin, i, previous);
      if step.None? {
        return None, previous;
      }
      written := step.value;
      previous := order[i].end - origin;
      i := i + 1;
    }
    out := Some(written);
  }

  /** One pass of the loop, on a prefix of the output already written: it
      extends the output by step i's text, or fails exactly when step i
      is out of bounds. */
  method TagStepAt(out: string, text: string, labels: map<Span, string>, order: seq<Span>, origin: int, i: nat,
                   previous: int)
    returns (next: Option<string>)
    requires i < |order| && Labelled(order, labels)
    requires StepsOk(text, order, origin, i)
    requires previous == Cursor(order, origin, i)
    requires out == TagText(text, labels, order, origin, i)
    ensures next.Some? <==> StepOk(text, order, origin, i)
    ensures next.Some? ==> next.value == TagText(text, labels, order, origin, i + 1)
  {
    next := AppendStep(out, text, labels, order, origin, i, previous);
  }
}
