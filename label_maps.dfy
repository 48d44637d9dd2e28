/** The `span -> label` map both inline writers build for one mention: the
    mention's own span and each present attribute, put in a fixed order,
    a later put on the same span replacing an earlier label. */
module LabelMaps {
  import opened Wrappers
  import opened Annotations
  import Text

  /** One `labelToInds.put(getSpan(...), label)` attempt; an absent span is a
      getter that threw, and the put is skipped. */
  datatype Slot = Slot(tag: string, span: Option<Span>)

  /** The seven puts in the order the writers make them. */
  function Slots(m: Mention): (r: seq<Slot>)
    ensures |r| == 7 && r[0] == Slot("central-dose", Some(m.span))
  {
    [ Slot("central-dose", Some(m.span)),
      Slot("boost", m.statusChange),
      Slot("date", m.startTime),
      Slot("secondary-dose", m.totalDose),
      Slot("fx-freq", m.frequency),
      Slot("fx-no", m.dosageCount),
      Slot("site", m.anatomicalSite) ]
  }

  /** Slot i is the last put on span k. */
  ghost predicate LastPutOn(slots: seq<Slot>, i: int, k: Span) {
    0 <= i < |slots| && slots[i].span == Some(k) &&
    forall j :: i < j < |slots| ==> slots[j].span != Some(k)
  }

  /** The map after the puts of `slots`, made in order. */
  function PutAll(slots: seq<Slot>): (labels: map<Span, string>)
    ensures |labels| <= |slots|
    decreases |slots|
  {
    if |slots| == 0 then map[]
    else
      var last := slots[|slots| - 1];
      var prev := PutAll(slots[..|slots| - 1]);
      if last.span.Some? then prev[last.span.value := last.tag] else prev
  }

  /** A span is a key exactly when some put was made on it. */
  lemma {:induction false} PutAllKeys(slots: seq<Slot>)
    ensures forall k :: k in PutAll(slots) <==> exists i :: 0 <= i < |slots| && slots[i].span == Some(k)
    decreases |slots|
  {
    if |slots| > 0 {
      var n := |slots| - 1;
      var init := slots[..n];
      PutAllKeys(init);
      forall k | k in PutAll(slots)
        ensures exists i :: 0 <= i < |slots| && slots[i].span == Some(k)
      {
        if slots[n].span != Some(k) {
          var i :| 0 <= i < n && init[i].span == Some(k);
          assert slots[i] == init[i];
        }
      }
      forall k, i | 0 <= i < |slots| && slots[i].span == Some(k)
        ensures k in PutAll(slots)
      {
        if i < n {
          assert init[i] == slots[i];
        }
      }
    }
  }

  /** The label of a key is the one of the last put on it. */
  lemma {:induction false} PutAllLastWins(slots: seq<Slot>)
    ensures forall k :: k in PutAll(slots) ==> exists i :: LastPutOn(slots, i, k) && PutAll(slots)[k] == slots[i].tag
    decreases |slots|
  {
    if |slots| > 0 {
      var n := |slots| - 1;
      var init := slots[..n];
      PutAllLastWins(init);
      var labels := PutAll(slots);
      forall k | k in labels
        ensures exists i :: LastPutOn(slots, i, k) && labels[k] == slots[i].tag
      {
        if slots[n].span == Some(k) {
          assert LastPutOn(slots, n, k);
        } else {
          assert k in PutAll(init);
          var i :| LastPutOn(init, i, k) && PutAll(init)[k] == init[i].tag;
          assert slots[i] == init[i];
          assert LastPutOn(slots, i, k);
        }
      }
    }
  }

  /** `writeMention`'s label map for mention m. */
  function LabelMap(m: Mention): map<Span, string> {
    PutAll(Slots(m))
  }

  /** The keys are the mention's span and the spans of its present attributes. */
  lemma LabelMapKeys(m: Mention)
    ensures LabelMap(m).Keys ==
      {m.span} + PresentSpans([m.statusChange, m.startTime, m.totalDose,
                               m.frequency, m.dosageCount, m.anatomicalSite])
  {
    var s := Slots(m);
    PutAllKeys(s);
    var present := PresentSpans([m.statusChange, m.startTime, m.totalDose,
                                 m.frequency, m.dosageCount, m.anatomicalSite]);
    forall k | k in present ensures k in LabelMap(m) {
      assert s[1..][0].span == m.statusChange;
      var i :| 0 <= i < 6 && [m.statusChange, m.startTime, m.totalDose,
                               m.frequency, m.dosageCount, m.anatomicalSite][i] == Some(k);
      assert s[i + 1].span == Some(k);
    }
    forall k | k in LabelMap(m) ensures k == m.span || k in present {
      var i :| 0 <= i < 7 && s[i].span == Some(k);
      if i > 0 {
        assert [m.statusChange, m.startTime, m.totalDose,
                m.frequency, m.dosageCount, m.anatomicalSite][i - 1] == Some(k);
      }
    }
  }

  ghost function PresentSpans(opts: seq<Option<Span>>): set<Span> {
    set i | 0 <= i < |opts| && opts[i].Some? :: opts[i].value
  }

  /** The mention's own span is always a key; it keeps the label
      "central-dose" unless an attribute has exactly the same span. */
  lemma CentralDoseLabel(m: Mention)
    ensures m.span in LabelMap(m)
    ensures m.statusChange != Some(m.span) && m.startTime != Some(m.span) &&
            m.totalDose != Some(m.span) && m.frequency != Some(m.span) &&
            m.dosageCount != Some(m.span) && m.anatomicalSite != Some(m.span)
            ==> LabelMap(m)[m.span] == "central-dose"
  {
    var s := Slots(m);
    PutAllKeys(s);
    PutAllLastWins(s);
    assert s[0].span == Some(m.span);
    var i :| LastPutOn(s, i, m.span) && LabelMap(m)[m.span] == s[i].tag;
  }

  /** A present attribute whose span no later slot repeats carries its own label;
      a later slot on the same span wins (last write wins). */
  lemma {:induction false} SlotLabel(m: Mention, i: nat)
    requires i < 7 && Slots(m)[i].span.Some?
    ensures Slots(m)[i].span.value in LabelMap(m)
    ensures LastPutOn(Slots(m), i, Slots(m)[i].span.value) ==>
            LabelMap(m)[Slots(m)[i].span.value] == Slots(m)[i].tag
  {
    var s := Slots(m);
    PutAllKeys(s);
    PutAllLastWins(s);
    var k := s[i].span.value;
    assert k in LabelMap(m);
    var j :| LastPutOn(s, j, k) && LabelMap(m)[k] == s[j].tag;
    if LastPutOn(s, i, k) {
      assert i == j;
    }
  }

  /** `writeMention`'s sequence of puts into a fresh HashMap. */
  method BuildLabelMap(m: Mention) returns (labelToInds: map<Span, string>)
    ensures labelToInds == LabelMap(m)
  {
    var slots := Slots(m);
    labelToInds := map[];
    var k := 0;
    while k < |slots|
      invariant 0 <= k <= |slots|
      invariant labelToInds == PutAll(slots[..k])
    {
      Text.PrefixOfPrefix(slots, k, k + 1);
      if slots[k].span.Some? {
        labelToInds := labelToInds[slots[k].span.value := slots[k].tag];
      }
      k := k + 1;
    }
    assert slots[..k] == slots;
  }
}
