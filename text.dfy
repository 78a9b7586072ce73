/** String helpers shared by the models: JavaScript's `startsWith`, `endsWith`,
    `includes`, `split`, `join`, `replace` with a one-character string pattern,
    ASCII case folding and decimal rendering of integers. */
module Text {

  predicate IsDigit(c: char) { '0' <= c <= '9' }

  predicate AllDigits(s: string) { forall i :: 0 <= i < |s| ==> IsDigit(s[i]) }

  function DigitValue(c: char): (d: nat)
    requires IsDigit(c)
    ensures d < 10
  {
    c as int - '0' as int
  }

  function DigitChar(d: nat): (c: char)
    requires d < 10
    ensures IsDigit(c) && DigitValue(c) == d
  {
    ('0' as int + d) as char
  }

  /** The value of a string of decimal digits, most significant first. */
  function DecimalValue(s: string): nat
    requires AllDigits(s)
  {
    if s == [] then 0 else DecimalValue(s[..|s| - 1]) * 10 + DigitValue(s[|s| - 1])
  }

  lemma DecimalValueOfTwo(a: char, b: char)
    requires IsDigit(a) && IsDigit(b)
    ensures DecimalValue([a, b]) == DigitValue(a) * 10 + DigitValue(b)
  {
    assert [a, b][..1] == [a];
    assert [a][..0] == [];
    assert DecimalValue([a]) == DecimalValue([]) * 10 + DigitValue(a);
  }

  function Pow10(n: nat): (p: nat)
    ensures p >= 1
  {
    if n == 0 then 1 else 10 * Pow10(n - 1)
  }

  lemma {:induction false} DecimalValueBound(s: string)
    requires AllDigits(s)
    ensures DecimalValue(s) < Pow10(|s|)
  {
    if s != [] {
      DecimalValueBound(s[..|s| - 1]);
    }
  }

  /** Decimal rendering of a natural number, as `String(n)` gives it. */
  function NatToString(n: nat): (r: string)
    ensures |r| > 0 && AllDigits(r)
    ensures n < 10 <==> |r| == 1
  {
    if n < 10 then [DigitChar(n)] else NatToString(n / 10) + [DigitChar(n % 10)]
  }

  lemma {:induction false} NatToStringRoundTrip(n: nat)
    ensures DecimalValue(NatToString(n)) == n
  {
    if n >= 10 {
      var r := NatToString(n);
      assert r[..|r| - 1] == NatToString(n / 10);
      NatToStringRoundTrip(n / 10);
    }
  }

  /** Decimal rendering of an integer, as a template literal `${i}` gives it. */
  function IntToString(i: int): (r: string)
    ensures i >= 0 ==> r == NatToString(i)
    ensures i < 0 ==> r == "-" + NatToString(-i)
  {
    if i < 0 then "-" + NatToString(-i) else NatToString(i)
  }

  /** The rendering reads back as the number: an optional minus sign followed
      by the decimal digits of its absolute value. */
  lemma IntToStringReadsBack(i: int)
    ensures var r := IntToString(i);
      (i < 0 ==> |r| >= 2 && r[0] == '-' && AllDigits(r[1..]) && DecimalValue(r[1..]) == -i) &&
      (i >= 0 ==> AllDigits(r) && DecimalValue(r) == i)
  {
    var n := if i < 0 then -i else i;
    var digits := NatToString(n);
    NatToStringRoundTrip(n);
    if i < 0 {
      var r := IntToString(i);
      assert r == "-" + digits;
      assert r[1..] == digits;
    }
  }

  /** ASCII lower-casing; every other character is left alone. This is how a
      case-insensitive JavaScript regular expression without the `u` flag
      compares an ASCII pattern letter with a character of the input. */
  function LowerAscii(c: char): (r: char)
    ensures 'A' <= c <= 'Z' ==> r as int == c as int + 32
    ensures !('A' <= c <= 'Z') ==> r == c
  {
    if 'A' <= c <= 'Z' then (c as int + 32) as char else c
  }

  function Lower(s: string): (r: string)
    ensures |r| == |s| && forall i :: 0 <= i < |s| ==> r[i] == LowerAscii(s[i])
  {
    if s == [] then [] else [LowerAscii(s[0])] + Lower(s[1..])
  }

  predicate StartsWith(s: string, prefix: string) {
    |prefix| <= |s| && s[..|prefix|] == prefix
  }

  predicate EndsWith(s: string, suffix: string) {
    |suffix| <= |s| && s[|s| - |suffix|..] == suffix
  }

  predicate OccursAt(s: string, t: string, i: nat) {
    i + |t| <= |s| && s[i..i + |t|] == t
  }

  /** `s.includes(t)`. */
  function Contains(s: string, t: string): (r: bool)
    ensures r <==> exists i :: 0 <= i <= |s| - |t| && OccursAt(s, t, i)
  {
    ContainsFrom(s, t, 0)
  }

  function ContainsFrom(s: string, t: string, i: nat): (r: bool)
    requires i <= |s|
    ensures r <==> exists k :: i <= k <= |s| - |t| && OccursAt(s, t, k)
    decreases |s| - i
  {
    if i + |t| > |s| then false
    else if s[i..i + |t|] == t then assert OccursAt(s, t, i); true
    else ContainsFrom(s, t, i + 1)
  }

  /** An occurrence that starts at or after `|u|` lies inside `v`. */
  lemma OccursInSecond(u: string, v: string, t: string, i: nat)
    requires |u| <= i && OccursAt(u + v, t, i)
    ensures OccursAt(v, t, i - |u|)
  {
    assert (u + v)[i..i + |t|] == v[i - |u|..i - |u| + |t|];
  }

  /** Text whose first character does not occur in `u` cannot start there, so
      it occurs in `u + v` only if it occurs in `v`. */
  lemma NotContainsCat(u: string, v: string, t: string)
    requires t != [] && t[0] !in u && !Contains(v, t)
    ensures !Contains(u + v, t)
  {
    forall i | 0 <= i <= |u + v| - |t| ensures !OccursAt(u + v, t, i) {
      if OccursAt(u + v, t, i) && i >= |u| {
        OccursInSecond(u, v, t, i);
      }
    }
  }

  /** One character in front of `v` cannot start an occurrence when the next
      character differs from the second of `t`. */
  lemma NotContainsHead(c: char, v: string, t: string)
    requires |t| >= 2 && (v == [] || v[0] != t[1]) && !Contains(v, t)
    ensures !Contains([c] + v, t)
  {
    forall i | 0 <= i <= |[c] + v| - |t| ensures !OccursAt([c] + v, t, i) {
      if OccursAt([c] + v, t, i) && i > 0 {
        OccursInSecond([c], v, t, i);
      }
    }
  }

  /** The index of the first `c` in `s` at or after `i`, or `|s|` when there is none. */
  function IndexOfFrom(s: string, c: char, i: nat): (k: nat)
    requires i <= |s|
    ensures i <= k <= |s|
    ensures k < |s| ==> s[k] == c
    ensures forall j :: i <= j < k ==> s[j] != c
    decreases |s| - i
  {
    if i == |s| || s[i] == c then i else IndexOfFrom(s, c, i + 1)
  }

  /** `s.split(sep)` for a one-character separator: `n` separators give `n + 1`
      pieces, empty ones included. */
  function Split(s: string, sep: char): (parts: seq<string>)
    ensures |parts| >= 1
    ensures forall k, j :: 0 <= k < |parts| && 0 <= j < |parts[k]| ==> parts[k][j] != sep
    decreases |s|
  {
    var i := IndexOfFrom(s, sep, 0);
    if i == |s| then [s] else [s[..i]] + Split(s[i + 1..], sep)
  }

  lemma ConcatAssoc(a: string, b: string, c: string)
    ensures a + b + c == a + (b + c)
  {
  }

  lemma SplitWithoutSeparator(s: string, sep: char)
    requires sep !in s
    ensures Split(s, sep) == [s]
  {
  }

  /** Splitting at the first separator peels off the piece before it. */
  lemma SplitAtFirst(head: string, tail: string, sep: char)
    requires sep !in head
    ensures Split(head + [sep] + tail, sep) == [head] + Split(tail, sep)
  {
    var s := head + [sep] + tail;
    var i := IndexOfFrom(s, sep, 0);
    assert s[|head|] == sep;
    assert forall j :: 0 <= j < |head| ==> s[j] == head[j];
    assert i == |head|;
    assert s[..i] == head;
    assert s[i + 1..] == tail;
  }

  /** `parts.join(sep)`. */
  function Join(parts: seq<string>, sep: char): string
    requires |parts| >= 1
  {
    if |parts| == 1 then parts[0] else parts[0] + [sep] + Join(parts[1..], sep)
  }

  /** Joining the pieces with the separator gives back the string. */
  lemma {:induction false} JoinSplit(s: string, sep: char)
    ensures Join(Split(s, sep), sep) == s
    decreases |s|
  {
    var i := IndexOfFrom(s, sep, 0);
    if i < |s| {
      JoinSplit(s[i + 1..], sep);
      assert s == s[..i] + [sep] + s[i + 1..];
    }
  }

  /** `s.replace(from, to)` with one-character strings: only the first
      occurrence is replaced. */
  function ReplaceFirst(s: string, from: char, to: char): string
  {
    var i := IndexOfFrom(s, from, 0);
    if i == |s| then s else s[..i] + [to] + s[i + 1..]
  }

  lemma ReplaceFirstOf(head: string, tail: string, from: char, to: char)
    requires forall j :: 0 <= j < |head| ==> head[j] != from
    ensures ReplaceFirst(head + [from] + tail, from, to) == head + [to] + tail
  {
    var s := head + [from] + tail;
    var i := IndexOfFrom(s, from, 0);
    assert s[|head|] == from;
    assert i == |head|;
    assert s[..i] == head && s[i + 1..] == tail;
  }

  lemma ReplaceFirstAbsent(s: string, from: char, to: char)
    requires from !in s
    ensures ReplaceFirst(s, from, to) == s
  {
  }
}
