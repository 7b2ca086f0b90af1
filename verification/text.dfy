/** The few `java.lang.String` and `Integer` operations the modelled code
    relies on, with Java's edge cases written out: `split` drops trailing
    empty segments, `replace` with an empty target inserts everywhere,
    `Integer.parseInt` accepts an optional sign and rejects out-of-range
    values. */
module Text {
  import opened Wrappers

  const INT_MIN: int := -0x8000_0000
  const INT_MAX: int := 0x7FFF_FFFF

  /** Java's string conversion of a possibly null reference. */
  function NullableText(s: Option<string>): string {
    match s
    case Some(v) => v
    case None => "null"
  }

  /** `StringUtils.isNotEmpty`. */
  predicate NonEmpty(s: Option<string>) {
    s.Some? && s.value != ""
  }

  predicate IsInt32(n: int) {
    INT_MIN <= n <= INT_MAX
  }

  /** Java `int` addition: the exact sum wrapped into 32 bits. */
  function AddInt32(a: int, b: int): (r: int)
    requires IsInt32(a) && IsInt32(b)
    ensures IsInt32(r)
    ensures IsInt32(a + b) ==> r == a + b
    ensures !IsInt32(a + b) ==> r == a + b - 0x1_0000_0000 || r == a + b + 0x1_0000_0000
  {
    var s := a + b;
    if s > INT_MAX then s - 0x1_0000_0000
    else if s < INT_MIN then s + 0x1_0000_0000
    else s
  }

  // ---------------------------------------------------------------------
  // Prefixes, suffixes, occurrences

  predicate StartsWith(s: string, prefix: string) {
    |prefix| <= |s| && s[..|prefix|] == prefix
  }

  predicate EndsWith(s: string, suffix: string) {
    |suffix| <= |s| && s[|s| - |suffix|..] == suffix
  }

  /** `sub` occurs in `s` at index `i`. */
  predicate OccursAt(s: string, sub: string, i: int) {
    0 <= i && i + |sub| <= |s| && s[i..i + |sub|] == sub
  }

  predicate Contains(s: string, sub: string) {
    exists i :: 0 <= i <= |s| - |sub| && OccursAt(s, sub, i)
  }

  /** The largest occurrence of `sub` at an index `<= k`, or -1. */
  function LastIndexOfUpTo(s: string, sub: string, k: int): (r: int)
    requires k <= |s| - |sub|
    ensures r == -1 || 0 <= r <= k
    ensures r >= 0 ==> OccursAt(s, sub, r)
    ensures forall j :: r < j <= k ==> !OccursAt(s, sub, j)
    decreases k + 1
  {
    if k < 0 then -1
    else if s[k..k + |sub|] == sub then k
    else LastIndexOfUpTo(s, sub, k - 1)
  }

  /** Java `String.lastIndexOf(String)`: the index of the last occurrence,
      -1 when there is none (an empty `sub` occurs last at `|s|`). */
  function LastIndexOf(s: string, sub: string): (r: int)
    ensures r == -1 || 0 <= r <= |s| - |sub|
    ensures r >= 0 ==> OccursAt(s, sub, r)
    ensures forall j :: r < j <= |s| - |sub| ==> !OccursAt(s, sub, j)
    ensures r == -1 <==> !Contains(s, sub)
  {
    if |sub| > |s| then -1 else LastIndexOfUpTo(s, sub, |s| - |sub|)
  }

  /** Java `String.substring(begin)`: fails outside `0..|s|`. */
  function Substring(s: string, begin: int): (r: Result<string>)
    ensures r.Success? <==> 0 <= begin <= |s|
    ensures r.Success? ==> r.value == s[begin..]
    ensures r.Failure? ==> r.error == StringIndexOutOfBounds
  {
    if 0 <= begin <= |s| then Success(s[begin..]) else Failure(StringIndexOutOfBounds)
  }

  lemma LastIndexOfAppended(s: string, sub: string, tail: string)
    requires |sub| > 0
    requires forall j :: 0 < j <= |tail| ==> !OccursAt(sub + tail, sub, j)
    ensures LastIndexOf(s + sub + tail, sub) == |s|
  {
    var t := s + sub + tail;
    assert OccursAt(t, sub, |s|) by {
      assert t[|s|..|s| + |sub|] == sub;
    }
    var r := LastIndexOf(t, sub);
    if r > |s| {
      var j := r - |s|;
      assert (sub + tail)[j..j + |sub|] == t[r..r + |sub|];
      assert OccursAt(sub + tail, sub, j);
      assert false;
    }
  }

  /** When nothing after the first character of `sub` repeats that
      character, the last occurrence of `sub` is the one just before `tail`. */
  lemma LastIndexOfBeforeTail(s: string, sub: string, tail: string)
    requires |sub| > 0 && sub[0] !in sub[1..] + tail
    ensures LastIndexOf(s + sub + tail, sub) == |s|
  {
    var u := sub + tail;
    var rest := sub[1..] + tail;
    assert u == [sub[0]] + rest;
    forall j | 0 < j <= |tail|
      ensures !OccursAt(u, sub, j)
    {
      if j + |sub| <= |u| {
        assert u[j] == rest[j - 1];
        assert rest[j - 1] in rest;
        assert u[j..j + |sub|][0] == u[j];
      }
    }
    LastIndexOfAppended(s, sub, tail);
  }

  // ---------------------------------------------------------------------
  // split("/")

  /** Every segment between occurrences of `sep`, empty ones included:
      always one more segment than there are separators. */
  function Segments(s: string, sep: char): (r: seq<string>)
    ensures |r| >= 1
    ensures forall i :: 0 <= i < |r| ==> sep !in r[i]
    decreases |s|
  {
    if |s| == 0 then [""]
    else
      var rest := Segments(s[1..], sep);
      if s[0] == sep then [""] + rest
      else [[s[0]] + rest[0]] + rest[1..]
  }

  function DropTrailingEmpty(parts: seq<string>): (r: seq<string>)
    ensures |r| <= |parts| && r == parts[..|r|]
    ensures |r| > 0 ==> r[|r| - 1] != ""
    ensures forall i :: |r| <= i < |parts| ==> parts[i] == ""
  {
    if |parts| == 0 then []
    else if parts[|parts| - 1] == "" then DropTrailingEmpty(parts[..|parts| - 1])
    else parts
  }

  /** Java `String.split` on a one-character separator: the string itself
      when the separator does not occur; otherwise the segments with the
      trailing empty ones removed (which can leave none at all). */
  function Split(s: string, sep: char): (r: seq<string>)
    ensures sep !in s ==> r == [s]
    ensures forall i :: 0 <= i < |r| ==> sep !in r[i]
  {
    if sep !in s then [s] else DropTrailingEmpty(Segments(s, sep))
  }

  lemma SegmentsNoSep(s: string, sep: char)
    requires sep !in s
    ensures Segments(s, sep) == [s]
    decreases |s|
  {
    if |s| > 0 {
      SegmentsNoSep(s[1..], sep);
      assert [s[0]] + s[1..] == s;
    }
  }

  lemma {:induction false} SegmentsAppend(a: string, b: string, sep: char)
    requires sep !in a
    ensures Segments(a + [sep] + b, sep) == [a] + Segments(b, sep)
    decreases |a|
  {
    if |a| == 0 {
      assert a + [sep] + b == [sep] + b;
      assert ([sep] + b)[1..] == b;
    } else {
      var t := a + [sep] + b;
      assert t[0] == a[0];
      assert t[1..] == a[1..] + [sep] + b;
      SegmentsAppend(a[1..], b, sep);
      assert [a[0]] + a[1..] == a;
    }
  }

  /** Splitting `a + "/" + b` gives back exactly `a` and `b` when neither
      holds the separator and `b` is not empty. */
  lemma SplitTwo(a: string, b: string, sep: char)
    requires sep !in a && sep !in b && b != ""
    ensures Split(a + [sep] + b, sep) == [a, b]
  {
    var t := a + [sep] + b;
    assert t[|a|] == sep;
    SegmentsAppend(a, b, sep);
    SegmentsNoSep(b, sep);
    assert Segments(t, sep) == [a, b];
  }

  /** Head and tail of a concatenation with a non-empty left part. */
  lemma TailOfAppend<T>(a: seq<T>, b: seq<T>)
    requires |a| > 0
    ensures (a + b)[0] == a[0] && (a + b)[1..] == a[1..] + b
  {
  }

  lemma ConsAppend<T>(x: T, s: seq<T>, t: seq<T>)
    ensures [x] + (s + t) == ([x] + s) + t
  {
  }

  /** A separator between `a` and `b` joins their segments. */
  lemma {:induction false} SegmentsConcat(a: string, b: string, sep: char)
    ensures Segments(a + [sep] + b, sep) == Segments(a, sep) + Segments(b, sep)
    decreases |a|
  {
    var t := a + [sep] + b;
    if |a| == 0 {
      assert t == [sep] + b;
      assert t[1..] == b;
    } else {
      assert t == a + ([sep] + b);
      TailOfAppend(a, [sep] + b);
      assert a[1..] + ([sep] + b) == a[1..] + [sep] + b;
      SegmentsConcat(a[1..], b, sep);
      SegmentsStep(a, b, sep);
    }
  }

  /** The step of `SegmentsConcat`: from the tail of `a` to `a`. */
  lemma SegmentsStep(a: string, b: string, sep: char)
    requires |a| > 0
    requires Segments(a[1..] + [sep] + b, sep) == Segments(a[1..], sep) + Segments(b, sep)
    requires (a + [sep] + b)[0] == a[0] && (a + [sep] + b)[1..] == a[1..] + [sep] + b
    ensures Segments(a + [sep] + b, sep) == Segments(a, sep) + Segments(b, sep)
  {
    var sa1 := Segments(a[1..], sep);
    var sb := Segments(b, sep);
    if a[0] == sep {
      ConsAppend("", sa1, sb);
    } else {
      TailOfAppend(sa1, sb);
      ConsAppend([a[0]] + sa1[0], sa1[1..], sb);
    }
  }

  /** The last segment of `a + "/" + b` is `b` when `b` is a non-empty name
      without the separator, whatever `a` holds. */
  lemma SplitLast(a: string, b: string, sep: char)
    requires sep !in b && b != ""
    ensures var r := Split(a + [sep] + b, sep); |r| > 0 && r[|r| - 1] == b
  {
    var t := a + [sep] + b;
    assert t[|a|] == sep;
    SegmentsConcat(a, b, sep);
    SegmentsNoSep(b, sep);
    var segs := Segments(a, sep) + [b];
    assert Segments(t, sep) == segs;
    assert DropTrailingEmpty(segs) == segs;
  }

  // ---------------------------------------------------------------------
  // replace(target, replacement)

  function InsertEverywhere(s: string, r: string): (res: string)
    ensures |res| == |s| + (|s| + 1) * |r|
    decreases |s|
  {
    if |s| == 0 then r else r + [s[0]] + InsertEverywhere(s[1..], r)
  }

  function ReplaceNonEmpty(s: string, target: string, r: string): string
    requires |target| > 0
    decreases |s|
  {
    if |s| < |target| then s
    else if s[..|target|] == target then r + ReplaceNonEmpty(s[|target|..], target, r)
    else [s[0]] + ReplaceNonEmpty(s[1..], target, r)
  }

  /** Java `String.replace(CharSequence, CharSequence)`: every occurrence,
      scanning left to right without overlap; an empty target matches before
      every character and at the end. */
  function Replace(s: string, target: string, r: string): string {
    if |target| == 0 then InsertEverywhere(s, r) else ReplaceNonEmpty(s, target, r)
  }

  lemma {:induction false} ReplaceAbsent(s: string, target: string, r: string)
    requires |target| > 0 && !Contains(s, target)
    ensures Replace(s, target, r) == s
    decreases |s|
  {
    if |s| >= |target| {
      assert !OccursAt(s, target, 0);
      assert !Contains(s[1..], target) by {
        if Contains(s[1..], target) {
          var i :| 0 <= i <= |s[1..]| - |target| && OccursAt(s[1..], target, i);
          assert s[i + 1..i + 1 + |target|] == s[1..][i..i + |target|];
          assert OccursAt(s, target, i + 1);
        }
      }
      ReplaceAbsent(s[1..], target, r);
      assert [s[0]] + s[1..] == s;
    }
  }

  /** A string that starts with the target has that first occurrence
      replaced and the rest handled independently. */
  lemma ReplaceLeading(target: string, tail: string, r: string)
    requires |target| > 0
    ensures Replace(target + tail, target, r) == r + Replace(tail, target, r)
  {
    var s := target + tail;
    assert s[..|target|] == target;
    assert s[|target|..] == tail;
  }

  lemma {:induction false} ReplaceSelfNonEmpty(s: string, target: string)
    requires |target| > 0
    ensures ReplaceNonEmpty(s, target, target) == s
    decreases |s|
  {
    if |s| >= |target| {
      if s[..|target|] == target {
        ReplaceSelfNonEmpty(s[|target|..], target);
        assert target + s[|target|..] == s;
      } else {
        ReplaceSelfNonEmpty(s[1..], target);
        assert [s[0]] + s[1..] == s;
      }
    }
  }

  lemma {:induction false} InsertNothing(s: string)
    ensures InsertEverywhere(s, "") == s
    decreases |s|
  {
    if |s| > 0 {
      InsertNothing(s[1..]);
      assert [s[0]] + s[1..] == s;
    }
  }

  /** Replacing a string by itself never changes anything. */
  lemma ReplaceSelf(s: string, target: string)
    ensures Replace(s, target, target) == s
  {
    if |target| == 0 {
      InsertNothing(s);
    } else {
      ReplaceSelfNonEmpty(s, target);
    }
  }

  // ---------------------------------------------------------------------
  // Decimal text of integers

  predicate IsDigit(c: char) {
    '0' <= c <= '9'
  }

  predicate AllDigits(s: string) {
    forall i :: 0 <= i < |s| ==> IsDigit(s[i])
  }

  function DigitChar(d: nat): (c: char)
    requires d < 10
    ensures IsDigit(c)
  {
    ['0', '1', '2', '3', '4', '5', '6', '7', '8', '9'][d]
  }

  function DigitValue(c: char): (d: nat)
    requires IsDigit(c)
    ensures d < 10
  {
    (c as int - '0' as int) as nat
  }

  lemma DigitRoundTrip(d: nat)
    requires d < 10
    ensures DigitValue(DigitChar(d)) == d
  {
  }

  /** The decimal digits of a natural number, most significant first. */
  function NatToDigits(n: nat): (s: string)
    ensures |s| > 0 && AllDigits(s)
    decreases n
  {
    if n < 10 then [DigitChar(n)] else NatToDigits(n / 10) + [DigitChar(n % 10)]
  }

  function DigitsToNat(s: string): nat
    requires AllDigits(s)
    decreases |s|
  {
    if |s| == 0 then 0 else DigitsToNat(s[..|s| - 1]) * 10 + DigitValue(s[|s| - 1])
  }

  lemma {:induction false} DigitsRoundTrip(n: nat)
    ensures DigitsToNat(NatToDigits(n)) == n
    decreases n
  {
    if n < 10 {
      DigitRoundTrip(n);
    } else {
      var s := NatToDigits(n);
      assert s[..|s| - 1] == NatToDigits(n / 10);
      DigitsRoundTrip(n / 10);
      DigitRoundTrip(n % 10);
    }
  }

  /** Java `Integer.toString` / string concatenation of an int. */
  function IntToString(n: int): (s: string)
    ensures |s| > 0 && '/' !in s
  {
    var digits := if n < 0 then NatToDigits(-n) else NatToDigits(n);
    assert forall c :: c in digits ==> IsDigit(c);
    if n < 0 then "-" + digits else digits
  }

  /** Java `Integer.parseInt`: an optional sign, then one or more decimal
      digits, and a value inside the `int` range; anything else raises
      `NumberFormatException`. */
  function ParseInt(s: string): (r: Result<int>)
    ensures r.Success? ==> IsInt32(r.value)
    ensures r.Failure? ==> r.error == NumberFormat
    ensures |s| == 0 ==> r.Failure?
  {
    if |s| == 0 then Failure(NumberFormat)
    else
      var negative := s[0] == '-';
      var digits := if s[0] == '-' || s[0] == '+' then s[1..] else s;
      if |digits| == 0 || !AllDigits(digits) then Failure(NumberFormat)
      else
        var magnitude := DigitsToNat(digits);
        var value: int := if negative then -(magnitude as int) else magnitude;
        if IsInt32(value) then Success(value) else Failure(NumberFormat)
  }

  /** Unsigned decimal text parses to its value. */
  lemma ParseUnsigned(digits: string)
    requires |digits| > 0 && AllDigits(digits) && IsInt32(DigitsToNat(digits))
    ensures ParseInt(digits) == Success(DigitsToNat(digits))
  {
    assert IsDigit(digits[0]);
  }

  /** "-" followed by decimal text parses to the negated value. */
  lemma ParseNegative(digits: string)
    requires |digits| > 0 && AllDigits(digits) && IsInt32(-(DigitsToNat(digits) as int))
    ensures ParseInt("-" + digits) == Success(-(DigitsToNat(digits) as int))
  {
    var s := "-" + digits;
    assert s[0] == '-' && s[1..] == digits;
  }

  /** Printing an `int` and parsing the text back gives the same `int`. */
  lemma ParseIntToString(n: int)
    requires IsInt32(n)
    ensures ParseInt(IntToString(n)) == Success(n)
  {
    if n < 0 {
      NegativeRoundTrip(n);
    } else {
      NonNegativeRoundTrip(n);
    }
  }

  lemma NegativeRoundTrip(n: int)
    requires IsInt32(n) && n < 0
    ensures ParseInt(IntToString(n)) == Success(n)
  {
    var m: nat := -n;
    var digits := NatToDigits(m);
    assert IntToString(n) == "-" + digits;
    DigitsRoundTrip(m);
    assert DigitsToNat(digits) == m;
    ParseNegative(digits);
    assert ParseInt("-" + digits) == Success(n);
  }

  lemma NonNegativeRoundTrip(n: int)
    requires IsInt32(n) && n >= 0
    ensures ParseInt(IntToString(n)) == Success(n)
  {
    var digits := NatToDigits(n);
    assert IntToString(n) == digits;
    DigitsRoundTrip(n);
    ParseUnsigned(digits);
  }
}
