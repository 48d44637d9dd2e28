/** String helpers that the writers and the annotator rely on: newline
    normalisation, decimal rendering of offsets, joining and searching. */
module Text {
  import opened Wrappers

  /** A prefix one longer is the prefix and the next element. */
  lemma PrefixStep<T>(s: seq<T>, j: nat)
    requires j < |s|
    ensures s[..j + 1] == s[..j] + [s[j]]
  {
  }

  /** A prefix of a prefix is a prefix. */
  lemma PrefixOfPrefix<T>(s: seq<T>, m: nat, n: nat)
    requires m <= n <= |s|
    ensures s[..n][..m] == s[..m]
  {
  }

  lemma Assoc<T>(x: seq<T>, y: seq<T>, z: seq<T>)
    ensures (x + y) + z == x + (y + z)
  {
  }

  /** `String.replace("\n", " ")`: every newline becomes one space. */
  function Normalize(s: string): (r: string)
    ensures |r| == |s|
    ensures forall i :: 0 <= i < |s| ==> r[i] == (if s[i] == '\n' then ' ' else s[i])
  {
    seq(|s|, i requires 0 <= i < |s| => if s[i] == '\n' then ' ' else s[i])
  }

  /** Normalising a slice is slicing the normalised text. */
  lemma NormalizeSlice(s: string, a: int, b: int)
    requires 0 <= a <= b <= |s|
    ensures Normalize(s)[a..b] == Normalize(s[a..b])
  {
  }

  /** The normalised text holds no newline and normalising again changes nothing. */
  lemma NormalizeIdempotent(s: string)
    ensures '\n' !in Normalize(s)
    ensures Normalize(Normalize(s)) == Normalize(s)
  {
  }

  // ---------------------------------------------------------------------
  // Decimal rendering of integers, as Java's `%d` and `"" + n` do it.

  predicate IsDigit(c: char) { '0' <= c <= '9' }

  predicate IsDigits(s: string) { |s| > 0 && forall i :: 0 <= i < |s| ==> IsDigit(s[i]) }

  function DigitChar(d: nat): (c: char)
    requires d < 10
    ensures IsDigit(c)
  {
    "0123456789"[d]
  }

  function DigitValue(c: char): nat
    requires IsDigit(c)
  {
    (c as int - '0' as int) as nat
  }

  /** Decimal digits of a natural number, most significant first, no leading zero. */
  function NatToString(n: nat): (r: string)
    ensures IsDigits(r)
    ensures r[0] == '0' ==> n == 0
    decreases n
  {
    if n < 10 then [DigitChar(n)] else NatToString(n / 10) + [DigitChar(n % 10)]
  }

  /** Java's decimal rendering of an int: a leading '-' for negative values. */
  function IntToString(i: int): (r: string)
    ensures |r| > 0
    ensures r[0] == '-' <==> i < 0
    ensures forall k :: 0 <= k < |r| ==> r[k] == '-' || IsDigit(r[k])
  {
    if i < 0 then "-" + NatToString(-i) else NatToString(i)
  }

  /** Value of a string of decimal digits. */
  function ParseNat(s: string): nat
    requires forall k :: 0 <= k < |s| ==> IsDigit(s[k])
  {
    if |s| == 0 then 0 else 10 * ParseNat(s[..|s| - 1]) + DigitValue(s[|s| - 1])
  }

  /** Reads back what IntToString writes. */
  function ParseInt(s: string): Option<int> {
    if |s| > 0 && s[0] == '-' && IsDigits(s[1..]) then Some(-(ParseNat(s[1..]) as int))
    else if IsDigits(s) then Some(ParseNat(s) as int)
    else None
  }

  lemma {:induction false} ParseNatToString(n: nat)
    ensures ParseNat(NatToString(n)) == n
    decreases n
  {
    if n >= 10 {
      var s := NatToString(n);
      ParseNatToString(n / 10);
      assert s[..|s| - 1] == NatToString(n / 10);
      assert DigitValue(DigitChar(n % 10)) == n % 10;
    } else {
      assert DigitValue(DigitChar(n)) == n;
    }
  }

  lemma ParseNegative(t: string)
    requires IsDigits(t)
    ensures ParseInt("-" + t) == Some(-(ParseNat(t) as int))
  {
    assert ("-" + t)[1..] == t;
  }

  lemma ParseDigits(t: string)
    requires IsDigits(t)
    ensures ParseInt(t) == Some(ParseNat(t) as int)
  {
    assert t[0] != '-';
  }

  lemma NegativeRoundTrip(i: int)
    requires i < 0
    ensures ParseInt(IntToString(i)) == Some(i)
  {
    ParseNegative(NatToString(-i));
    ParseNatToString(-i);
  }

  lemma NonNegativeRoundTrip(i: int)
    requires i >= 0
    ensures ParseInt(IntToString(i)) == Some(i)
  {
    ParseDigits(NatToString(i));
    ParseNatToString(i);
  }

  /** Decimal rendering is injective: the text of an offset gives back the offset. */
  lemma IntToStringRoundTrip(i: int)
    ensures ParseInt(IntToString(i)) == Some(i)
  {
    if i < 0 {
      NegativeRoundTrip(i);
    } else {
      NonNegativeRoundTrip(i);
    }
  }

  lemma IntToStringInjective(i: int, j: int)
    requires IntToString(i) == IntToString(j)
    ensures i == j
  {
    IntToStringRoundTrip(i);
    IntToStringRoundTrip(j);
  }

  // ---------------------------------------------------------------------
  // Joining and searching.

  /** Python's `sep.join(parts)`. */
  function Join(parts: seq<string>, sep: string): string
    decreases |parts|
  {
    if |parts| == 0 then ""
    else if |parts| == 1 then parts[0]
    else parts[0] + sep + Join(parts[1..], sep)
  }

  /** Where the k-th part starts in `Join(parts, " ")`. */
  function JoinOffset(parts: seq<string>, k: nat): nat
    requires k <= |parts|
    decreases k
  {
    if k == 0 then 0 else |parts[0]| + 1 + JoinOffset(parts[1..], k - 1)
  }

  /** In the space-joined text, part k sits at JoinOffset(parts, k) and is
      followed by a single space unless it is the last part. */
  lemma {:induction false} JoinLocates(parts: seq<string>, k: nat)
    requires k < |parts|
    ensures JoinOffset(parts, k) + |parts[k]| <= |Join(parts, " ")|
    ensures Join(parts, " ")[JoinOffset(parts, k)..JoinOffset(parts, k) + |parts[k]|] == parts[k]
    ensures k + 1 < |parts| ==> JoinOffset(parts, k) + |parts[k]| < |Join(parts, " ")|
    ensures k + 1 < |parts| ==> Join(parts, " ")[JoinOffset(parts, k) + |parts[k]|] == ' '
    decreases k
  {
    var j := Join(parts, " ");
    if |parts| == 1 {
    } else if k == 0 {
      assert j == parts[0] + " " + Join(parts[1..], " ");
      assert j[..|parts[0]|] == parts[0];
    } else {
      var rest := Join(parts[1..], " ");
      assert j == parts[0] + " " + rest;
      JoinLocates(parts[1..], k - 1);
      var o := JoinOffset(parts[1..], k - 1);
      assert JoinOffset(parts, k) == |parts[0]| + 1 + o;
      assert j[|parts[0]| + 1 + o..|parts[0]| + 1 + o + |parts[k]|] == rest[o..o + |parts[k]|];
      if k + 1 < |parts| {
        assert j[|parts[0]| + 1 + o + |parts[k]|] == rest[o + |parts[k]|];
      }
    }
  }

  /** Length of the joined text: the parts plus one separator between neighbours. */
  function TotalLength(parts: seq<string>): nat {
    if |parts| == 0 then 0 else |parts[0]| + TotalLength(parts[1..])
  }

  lemma {:induction false} JoinLength(parts: seq<string>)
    requires |parts| > 0
    ensures |Join(parts, " ")| == TotalLength(parts) + |parts| - 1
    decreases |parts|
  {
    if |parts| > 1 {
      JoinLength(parts[1..]);
    }
  }

  /** Java's `toLowerCase` and Python's `lower()`, restricted to ASCII letters. */
  function LowerAscii(c: char): char {
    if 'A' <= c <= 'Z' then (c as int + 32) as char else c
  }

  function ToLower(s: string): (r: string)
    ensures |r| == |s|
  {
    seq(|s|, i requires 0 <= i < |s| => LowerAscii(s[i]))
  }

  predicate OccursAt(s: string, pat: string, i: int) {
    0 <= i <= |s| - |pat| && s[i..i + |pat|] == pat
  }

  /** `String.contains`: `pat` occurs somewhere in `s`. */
  predicate Contains(s: string, pat: string) {
    exists i | 0 <= i <= |s| - |pat| :: OccursAt(s, pat, i)
  }
  // ---------------------------------------------------------------------
  // Separator-ended fields, as the CSV writer ends cells with ',' and lines
  // with a newline.

  /** Index of the first `c` in `s`, or |s| when there is none. */
  function Find(s: string, c: char): (i: nat)
    ensures i <= |s|
    ensures i < |s| ==> s[i] == c
    ensures forall j :: 0 <= j < i ==> s[j] != c
    decreases |s|
  {
    if |s| == 0 then 0 else if s[0] == c then 0 else 1 + Find(s[1..], c)
  }

  /** The fields of `s`, each ended by `sep`; a last field without one is kept. */
  function Fields(s: string, sep: char): seq<string>
    decreases |s|
  {
    if |s| == 0 then []
    else
      var i := Find(s, sep);
      if i == |s| then [s] else [s[..i]] + Fields(s[i + 1..], sep)
  }

  /** Every part followed by `sep`. */
  function Terminated(parts: seq<string>, sep: char): string
    decreases |parts|
  {
    if |parts| == 0 then "" else parts[0] + [sep] + Terminated(parts[1..], sep)
  }

  lemma FieldsSplit(a: string, sep: char, b: string)
    requires sep !in a
    ensures Fields(a + [sep] + b, sep) == [a] + Fields(b, sep)
  {
    var s := a + [sep] + b;
    var i := Find(s, sep);
    assert s[|a|] == sep;
    assert forall k :: 0 <= k < |a| ==> s[k] == a[k] && a[k] != sep;
    assert i == |a|;
    assert s[..i] == a;
    assert s[i + 1..] == b;
  }

  lemma FieldsWhole(a: string, sep: char)
    requires |a| > 0 && sep !in a
    ensures Fields(a, sep) == [a]
  {
    assert forall k :: 0 <= k < |a| ==> a[k] != sep;
  }

  /** Splitting undoes separator-ending when no part holds the separator. */
  lemma {:induction false} FieldsTerminated(parts: seq<string>, sep: char)
    requires forall i :: 0 <= i < |parts| ==> sep !in parts[i]
    ensures Fields(Terminated(parts, sep), sep) == parts
    decreases |parts|
  {
    if |parts| > 0 {
      FieldsSplit(parts[0], sep, Terminated(parts[1..], sep));
      FieldsTerminated(parts[1..], sep);
    }
  }

  lemma {:induction false} TerminatedAppend(parts: seq<string>, p: string, sep: char)
    ensures Terminated(parts + [p], sep) == Terminated(parts, sep) + p + [sep]
    decreases |parts|
  {
    if |parts| == 0 {
      assert parts + [p] == [p];
    } else {
      assert (parts + [p])[1..] == parts[1..] + [p];
      TerminatedAppend(parts[1..], p, sep);
    }
  }

  /** A character that is neither the separator nor in any part is not in the result. */
  lemma {:induction false} TerminatedAvoids(parts: seq<string>, sep: char, c: char)
    requires c != sep
    requires forall i :: 0 <= i < |parts| ==> c !in parts[i]
    ensures c !in Terminated(parts, sep)
    decreases |parts|
  {
    if |parts| > 0 {
      TerminatedAvoids(parts[1..], sep, c);
    }
  }
}
