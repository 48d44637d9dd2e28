/** The annotation store as the writers see it: spans, procedure mentions
    with their optional attributes, the covering relation, and the
    begin-offset sort every writer applies. */
module Annotations {
  import opened Wrappers

  /** Character offsets [begin, end) of an annotation in the document. */
  datatype Span = Span(begin: int, end: int)

  /** A ProcedureMention: its own (central) span and the six attribute
      slots, each absent when the getter has nothing (null or an exception). */
  datatype Mention = Mention(
    span: Span,
    statusChange: Option<Span>,
    startTime: Option<Span>,
    totalDose: Option<Span>,
    frequency: Option<Span>,
    dosageCount: Option<Span>,
    anatomicalSite: Option<Span>)

  /** A mention with none of its attributes set, as add_type creates it. */
  function Bare(sp: Span): Mention {
    Mention(sp, None, None, None, None, None, None)
  }

  /** The mention's own span and its six attributes, in the fixed order every
      writer visits them: central, statusChange, startTime, totalDose,
      frequency, dosageCount, anatomicalSite. */
  function SlotSpans(m: Mention): (r: seq<Option<Span>>)
    ensures |r| == 7
  {
    [Some(m.span), m.statusChange, m.startTime, m.totalDose, m.frequency, m.dosageCount, m.anatomicalSite]
  }

  /** UIMA's covering relation: `outer` encloses `inner`. */
  predicate Covers(outer: Span, inner: Span) {
    outer.begin <= inner.begin && inner.end <= outer.end
  }

  /** `getCoveredText()`: the document substring of a span; Java's substring
      throws when the span does not lie inside the document. */
  function CoveredText(doc: string, sp: Span): (r: Result<string>)
    ensures r.Ok? <==> 0 <= sp.begin <= sp.end <= |doc|
    ensures r.Ok? ==> |r.value| == sp.end - sp.begin
    ensures r.Ok? ==> forall i :: 0 <= i < |r.value| ==> r.value[i] == doc[sp.begin + i]
  {
    if 0 <= sp.begin <= sp.end <= |doc| then Ok(doc[sp.begin..sp.end]) else Err(CoveredTextOutOfRange)
  }

  // ---------------------------------------------------------------------
  // Stable sort by an integer key (Java's `sorted(Comparator.comparing(getBegin))`,
  // Python's `sorted(key=...)`).

  ghost predicate SortedBy<T>(s: seq<T>, key: T -> int) {
    forall i, j :: 0 <= i < j < |s| ==> key(s[i]) <= key(s[j])
  }

  /** Puts `x` after every element whose key is not greater than its own. */
  function Insert<T>(x: T, s: seq<T>, key: T -> int): seq<T>
    decreases |s|
  {
    if |s| == 0 || key(x) < key(s[0]) then [x] + s
    else [s[0]] + Insert(x, s[1..], key)
  }

  lemma {:induction false} InsertLength<T>(x: T, s: seq<T>, key: T -> int)
    ensures |Insert(x, s, key)| == |s| + 1
    decreases |s|
  {
    if |s| > 0 && key(s[0]) <= key(x) {
      InsertLength(x, s[1..], key);
    }
  }

  lemma {:induction false} InsertPermutes<T>(x: T, s: seq<T>, key: T -> int)
    ensures multiset(Insert(x, s, key)) == multiset(s) + multiset{x}
    decreases |s|
  {
    if |s| > 0 && key(s[0]) <= key(x) {
      InsertPermutes(x, s[1..], key);
      assert s == [s[0]] + s[1..];
    }
  }

  /** Every key in `s` is at least `v`. */
  ghost predicate AtLeast<T>(s: seq<T>, v: int, key: T -> int) {
    forall k :: 0 <= k < |s| ==> v <= key(s[k])
  }

  lemma {:induction false} InsertAtLeast<T>(x: T, s: seq<T>, key: T -> int, v: int)
    requires AtLeast(s, v, key) && v <= key(x)
    ensures AtLeast(Insert(x, s, key), v, key)
    decreases |s|
  {
    if |s| > 0 && key(s[0]) <= key(x) {
      InsertAtLeast(x, s[1..], key, v);
    }
  }

  lemma {:induction false} InsertSorted<T>(x: T, s: seq<T>, key: T -> int)
    requires SortedBy(s, key)
    ensures SortedBy(Insert(x, s, key), key)
    decreases |s|
  {
    if |s| > 0 && key(s[0]) <= key(x) {
      var tail := s[1..];
      assert SortedBy(tail, key) && AtLeast(tail, key(s[0]), key) by {
        assert forall k :: 0 <= k < |tail| ==> tail[k] == s[k + 1];
      }
      InsertSorted(x, tail, key);
      InsertAtLeast(x, tail, key, key(s[0]));
      var rest := Insert(x, tail, key);
      var r := [s[0]] + rest;
      assert r == Insert(x, s, key);
      forall a, b | 0 <= a < b < |r| ensures key(r[a]) <= key(r[b]) {
        assert r[b] == rest[b - 1];
        if a > 0 {
          assert r[a] == rest[a - 1];
        }
      }
    }
  }

  /** The elements of `s` whose key is `v`, in their order in `s`. */
  function KeyFilter<T>(s: seq<T>, key: T -> int, v: int): seq<T>
    decreases |s|
  {
    if |s| == 0 then [] else Keep(s[0], key, v) + KeyFilter(s[1..], key, v)
  }

  /** `[x]` when its key is `v`, else nothing. */
  function Keep<T>(x: T, key: T -> int, v: int): seq<T> {
    if key(x) == v then [x] else []
  }

  lemma KeyFilterCons<T>(x: T, s: seq<T>, key: T -> int, v: int)
    ensures KeyFilter([x] + s, key, v) == Keep(x, key, v) + KeyFilter(s, key, v)
  {
    assert ([x] + s)[1..] == s;
  }

  lemma {:induction false} KeyFilterAppend<T>(a: seq<T>, b: seq<T>, key: T -> int, v: int)
    ensures KeyFilter(a + b, key, v) == KeyFilter(a, key, v) + KeyFilter(b, key, v)
    decreases |a|
  {
    if |a| == 0 {
      assert a + b == b;
    } else {
      var x, rest := a[0], a[1..];
      KeyFilterAppend(rest, b, key, v);
      assert a + b == [x] + (rest + b);
      KeyFilterCons(x, rest + b, key, v);
    }
  }

  /** No element of a sequence whose keys all exceed `v` has key `v`. */
  lemma {:induction false} KeyFilterAbove<T>(s: seq<T>, key: T -> int, w: int, v: int)
    requires AtLeast(s, w, key) && v < w
    ensures KeyFilter(s, key, v) == []
    decreases |s|
  {
    if |s| > 0 {
      KeyFilterAbove(s[1..], key, w, v);
    }
  }

  /** In a sorted sequence, the inserted element comes after every element
      with the same key. */
  lemma {:induction false} InsertStable<T>(x: T, s: seq<T>, key: T -> int, v: int)
    requires SortedBy(s, key)
    ensures KeyFilter(Insert(x, s, key), key, v) == KeyFilter(s, key, v) + Keep(x, key, v)
    decreases |s|
  {
    if |s| == 0 {
      KeyFilterCons(x, s, key, v);
    } else if key(x) < key(s[0]) {
      KeyFilterCons(x, s, key, v);
      if key(x) == v {
        KeyFilterAbove(s, key, key(s[0]), v);
      }
    } else {
      var tail := s[1..];
      assert SortedBy(tail, key) by {
        assert forall k :: 0 <= k < |tail| ==> tail[k] == s[k + 1];
      }
      InsertStable(x, tail, key, v);
      KeyFilterCons(s[0], Insert(x, tail, key), key, v);
    }
  }

  /** Elements with equal keys leave the sort in their input order. */
  lemma {:induction false} SortByStable<T>(s: seq<T>, key: T -> int, v: int)
    ensures KeyFilter(SortBy(s, key), key, v) == KeyFilter(s, key, v)
    decreases |s|
  {
    if |s| > 0 {
      var init := s[..|s| - 1];
      var last := s[|s| - 1];
      var prev := SortBy(init, key);
      assert SortBy(s, key) == Insert(last, prev, key);
      SortByStable(init, key, v);
      SortBySpec(init, key);
      InsertStable(last, prev, key, v);
      assert s == init + [last];
      KeyFilterAppend(init, [last], key, v);
      KeyFilterCons(last, [], key, v);
      assert [last] + [] == [last];
    }
  }

  /** Insertion sort on `key`; equal keys keep their input order. */
  function SortBy<T>(s: seq<T>, key: T -> int): (r: seq<T>)
    ensures |r| == |s|
    decreases |s|
  {
    if |s| == 0 then []
    else
      var prev := SortBy(s[..|s| - 1], key);
      InsertLength(s[|s| - 1], prev, key);
      Insert(s[|s| - 1], prev, key)
  }

  /** The sort returns its input, reordered so that keys never decrease. */
  lemma {:induction false} SortBySpec<T>(s: seq<T>, key: T -> int)
    ensures SortedBy(SortBy(s, key), key)
    ensures multiset(SortBy(s, key)) == multiset(s)
    ensures |SortBy(s, key)| == |s|
    decreases |s|
  {
    if |s| > 0 {
      var init := s[..|s| - 1];
      SortBySpec(init, key);
      InsertPermutes(s[|s| - 1], SortBy(init, key), key);
      InsertSorted(s[|s| - 1], SortBy(init, key), key);
      assert s == init + [s[|s| - 1]];
    }
  }

  /** The whole contract of the stable sort: ordered by key, a permutation,
      and elements with equal keys in their input order. */
  lemma StableSortSpec<T>(s: seq<T>, key: T -> int)
    ensures SortedBy(SortBy(s, key), key)
    ensures multiset(SortBy(s, key)) == multiset(s)
    ensures forall v :: KeyFilter(SortBy(s, key), key, v) == KeyFilter(s, key, v)
  {
    SortBySpec(s, key);
    forall v ensures KeyFilter(SortBy(s, key), key, v) == KeyFilter(s, key, v) {
      SortByStable(s, key, v);
    }
  }

  function MentionBegin(m: Mention): int { m.span.begin }

  function SpanBegin(sp: Span): int { sp.begin }
}
