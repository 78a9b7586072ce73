/** The log-line classifier of `FFmpegHelper` (app/utils/ffmpeg.helper.ts):
    the two timestamp regular expressions of `detectDuration` and
    `detectProgress`, their conversion to seconds, the progress ratio, and the
    completion substrings of `detectCompletion`. Everything here is pure; the
    state the detectors update is in module FFmpegSession. Characters are Unicode
    scalar values; JavaScript matches these patterns on UTF-16 code units, which
    is the same for text in the Basic Multilingual Plane. */
module FFmpegLog {
  import opened Prelude
  import opened Text

  /** The characters that `.` in a JavaScript regular expression does not match. */
  predicate IsLineTerminator(c: char) {
    c == '\n' || c == '\r' || c == '\U{2028}' || c == '\U{2029}'
  }

  predicate NoTerminator(s: string, i: nat, j: nat)
    requires i <= j <= |s|
  {
    forall k :: i <= k < j ==> !IsLineTerminator(s[k])
  }

  /** The fixed text in front of a timestamp and the number of `.` wildcards
      between that text and the first digit group. */
  datatype Marker = Marker(key: string, gap: nat)

  /** `/.*Duration..(\d\d).(\d\d).(\d\d).(\d+).*\/m` */
  const DurationMarker := Marker("Duration", 2)

  /** `/.*time.(\d\d).(\d\d).(\d\d).(\d+).*\/m` */
  const ProgressMarker := Marker("time", 1)

  predicate ValidMarker(mk: Marker) {
    |mk.key| > 0 && forall j :: 0 <= j < |mk.key| ==> !IsLineTerminator(mk.key[j])
  }

  /** Where the first digit group starts for an occurrence at `p`. */
  function DigitsStart(mk: Marker, p: nat): nat {
    p + |mk.key| + mk.gap
  }

  /** The body `key.{gap}(\d\d).(\d\d).(\d\d).(\d+)` of the expression matches at `p`. */
  predicate StampAt(s: string, mk: Marker, p: nat) {
    var q := DigitsStart(mk, p);
    q + 10 <= |s| &&
    s[p..p + |mk.key|] == mk.key &&
    NoTerminator(s, p + |mk.key|, q) &&
    IsDigit(s[q]) && IsDigit(s[q + 1]) && !IsLineTerminator(s[q + 2]) &&
    IsDigit(s[q + 3]) && IsDigit(s[q + 4]) && !IsLineTerminator(s[q + 5]) &&
    IsDigit(s[q + 6]) && IsDigit(s[q + 7]) && !IsLineTerminator(s[q + 8]) &&
    IsDigit(s[q + 9])
  }

  /** The occurrence whose groups `String.prototype.match` reports. The search
      starts at the first line (run of characters without a line terminator)
      that holds an occurrence, and the greedy leading `.*` then settles on the
      last occurrence of that line: every other occurrence is an earlier one on
      the same line or lies on a later line. */
  predicate Selected(s: string, mk: Marker, p: nat) {
    p < |s| && StampAt(s, mk, p) &&
    forall p' :: 0 <= p' < |s| && StampAt(s, mk, p') ==>
      (p' <= p && NoTerminator(s, p', p)) || (p < p' && !NoTerminator(s, p, p'))
  }

  lemma SelectedIsUnique(s: string, mk: Marker, p1: nat, p2: nat)
    requires Selected(s, mk, p1) && Selected(s, mk, p2)
    ensures p1 == p2
  {
  }

  /** What the scan knows about the prefix `s[..i]`: `best` is the last
      occurrence there, and every occurrence there lies on its line. */
  predicate ScanInvariant(s: string, mk: Marker, i: nat, best: Option<nat>)
    requires i <= |s|
  {
    match best
    case None => forall p' :: 0 <= p' < i ==> !StampAt(s, mk, p')
    case Some(b) =>
      b < i && StampAt(s, mk, b) && NoTerminator(s, b, i) &&
      forall p' :: 0 <= p' < i && StampAt(s, mk, p') ==> p' <= b && NoTerminator(s, p', b)
  }

  lemma StampStartsWithKey(s: string, mk: Marker, p: nat)
    requires ValidMarker(mk) && StampAt(s, mk, p)
    ensures !IsLineTerminator(s[p])
  {
    assert s[p] == s[p..p + |mk.key|][0];
  }

  /** A line terminator ends the line of `best`: it is the selected occurrence. */
  lemma ScanStopsAtTerminator(s: string, mk: Marker, i: nat, b: nat)
    requires ValidMarker(mk) && i < |s| && IsLineTerminator(s[i])
    requires ScanInvariant(s, mk, i, Some(b))
    ensures Selected(s, mk, b)
  {
    forall p' | 0 <= p' < |s| && StampAt(s, mk, p')
      ensures (p' <= b && NoTerminator(s, p', b)) || (b < p' && !NoTerminator(s, b, p'))
    {
      if p' >= i {
        if p' == i { StampStartsWithKey(s, mk, p'); }
        assert !NoTerminator(s, b, p') by { assert b <= i < p'; }
      }
    }
  }

  lemma ScanTakesOccurrence(s: string, mk: Marker, i: nat, best: Option<nat>)
    requires ValidMarker(mk) && i < |s| && StampAt(s, mk, i)
    requires ScanInvariant(s, mk, i, best)
    requires best.Some? ==> !IsLineTerminator(s[i])
    ensures ScanInvariant(s, mk, i + 1, Some(i))
  {
    StampStartsWithKey(s, mk, i);
    forall p' | 0 <= p' < i + 1 && StampAt(s, mk, p') ensures p' <= i && NoTerminator(s, p', i) {
      if p' < i {
        NoTerminatorJoin(s, p', best.value, i);
      }
    }
  }

  lemma ScanSkips(s: string, mk: Marker, i: nat, best: Option<nat>)
    requires ValidMarker(mk) && i < |s| && !StampAt(s, mk, i)
    requires ScanInvariant(s, mk, i, best)
    requires best.Some? ==> !IsLineTerminator(s[i])
    ensures ScanInvariant(s, mk, i + 1, best)
  {
    if best.Some? {
      assert NoTerminator(s, best.value, i + 1);
    }
  }

  /** Left-to-right scan: `best` is the last occurrence seen on the current
      line; the scan stops at the end of the first line that has one. */
  function Scan(s: string, mk: Marker, i: nat, best: Option<nat>): (r: Option<nat>)
    requires i <= |s|
    ensures r.Some? ==> r == best || (i <= r.value < |s| && StampAt(s, mk, r.value))
    decreases |s| - i
  {
    if i == |s| then best
    else if best.Some? && IsLineTerminator(s[i]) then best
    else if StampAt(s, mk, i) then Scan(s, mk, i + 1, Some(i))
    else Scan(s, mk, i + 1, best)
  }

  /** From a state satisfying the invariant the scan reports the selected
      occurrence, or nothing when there is none. */
  lemma {:induction false} ScanSelects(s: string, mk: Marker, i: nat, best: Option<nat>)
    requires ValidMarker(mk) && i <= |s|
    requires ScanInvariant(s, mk, i, best)
    ensures Scan(s, mk, i, best).Some? ==> Selected(s, mk, Scan(s, mk, i, best).value)
    ensures Scan(s, mk, i, best).None? ==> forall p' :: 0 <= p' < |s| ==> !StampAt(s, mk, p')
    decreases |s| - i, 1
  {
    if i == |s| {
    } else if best.Some? && IsLineTerminator(s[i]) {
      ScanStopsAtTerminator(s, mk, i, best.value);
    } else {
      ScanSelectsFrom(s, mk, i, best);
    }
  }

  /** The step case: one character inside a line, then the rest of the scan. */
  lemma {:induction false} ScanSelectsFrom(s: string, mk: Marker, i: nat, best: Option<nat>)
    requires ValidMarker(mk) && i < |s| && !(best.Some? && IsLineTerminator(s[i]))
    requires ScanInvariant(s, mk, i, best)
    ensures Scan(s, mk, i, best).Some? ==> Selected(s, mk, Scan(s, mk, i, best).value)
    ensures Scan(s, mk, i, best).None? ==> forall p' :: 0 <= p' < |s| ==> !StampAt(s, mk, p')
    decreases |s| - i, 0
  {
    var next := ScanAdvance(s, mk, i, best);
    ScanSelects(s, mk, i + 1, next);
  }

  /** One step of the scan inside a line keeps the invariant. */
  lemma ScanAdvance(s: string, mk: Marker, i: nat, best: Option<nat>) returns (next: Option<nat>)
    requires ValidMarker(mk) && i < |s|
    requires ScanInvariant(s, mk, i, best)
    requires best.Some? ==> !IsLineTerminator(s[i])
    ensures ScanInvariant(s, mk, i + 1, next)
    ensures Scan(s, mk, i, best) == Scan(s, mk, i + 1, next)
  {
    if StampAt(s, mk, i) {
      ScanTakesOccurrence(s, mk, i, best);
      next := Some(i);
    } else {
      ScanSkips(s, mk, i, best);
      next := best;
    }
  }

  lemma NoTerminatorJoin(s: string, a: nat, b: nat, c: nat)
    requires a <= b <= c <= |s|
    requires NoTerminator(s, a, b) && NoTerminator(s, b, c)
    ensures NoTerminator(s, a, c)
  {
    forall k | a <= k < c ensures !IsLineTerminator(s[k]) {
      if k < b { assert !IsLineTerminator(s[k]); } else { assert !IsLineTerminator(s[k]); }
    }
  }

  /** The position of the occurrence the expression reports, if it matches. */
  function FindStamp(s: string, mk: Marker): (r: Option<nat>)
    ensures r.Some? ==> r.value < |s| && StampAt(s, mk, r.value)
  {
    Scan(s, mk, 0, None)
  }

  /** The expression matches exactly when some occurrence exists, and then it
      reports the selected one. */
  lemma FindStampSelects(s: string, mk: Marker)
    requires ValidMarker(mk)
    ensures FindStamp(s, mk).Some? ==> Selected(s, mk, FindStamp(s, mk).value)
    ensures FindStamp(s, mk).None? <==> forall p :: 0 <= p < |s| ==> !StampAt(s, mk, p)
  {
    ScanSelects(s, mk, 0, None);
  }

  /** The end of the run of digits that starts at `i`: what greedy `(\d+)` takes. */
  function DigitRunEnd(s: string, i: nat): (k: nat)
    requires i <= |s|
    ensures i <= k <= |s| && AllDigits(s[i..k])
    ensures k < |s| ==> !IsDigit(s[k])
    decreases |s| - i
  {
    if i == |s| || !IsDigit(s[i]) then i
    else
      var k := DigitRunEnd(s, i + 1);
      assert s[i..k] == [s[i]] + s[i + 1..k];
      k
  }

  /** `parseFloat("0." + digits)`, computed exactly. */
  function Fraction(digits: string): (f: real)
    requires AllDigits(digits)
    ensures 0.0 <= f < 1.0
  {
    DecimalValueBound(digits);
    NonNegativeRatio(DecimalValue(digits), Pow10(|digits|));
    DecimalValue(digits) as real / Pow10(|digits|) as real
  }

  lemma NonNegativeRatio(n: nat, d: nat)
    requires n < d
    ensures 0.0 <= n as real / d as real < 1.0
  {
    var q := n as real / d as real;
    assert q * d as real == n as real;
  }

  /** `hours * 3600 + minutes * 60 + seconds + milliseconds / 1000` for the
      four groups captured at occurrence `p`. */
  function StampSeconds(s: string, mk: Marker, p: nat): (t: real)
    requires StampAt(s, mk, p)
    ensures t >= 0.0
  {
    var q := DigitsStart(mk, p);
    assert AllDigits(s[q..q + 2]) && AllDigits(s[q + 3..q + 5]) && AllDigits(s[q + 6..q + 8]);
    var hours := DecimalValue(s[q..q + 2]);
    var minutes := DecimalValue(s[q + 3..q + 5]);
    var seconds := DecimalValue(s[q + 6..q + 8]);
    var fraction := s[q + 9..DigitRunEnd(s, q + 9)];
    (hours * 3600 + minutes * 60 + seconds) as real + Fraction(fraction)
  }

  /** The seconds of the occurrence the expression reports, or `None` when it
      does not match. */
  function StampIn(message: string, mk: Marker): (r: Option<real>)
    requires ValidMarker(mk)
    ensures r.Some? ==> r.value >= 0.0
  {
    FindStampSelects(message, mk);
    var found := FindStamp(message, mk);
    if found.None? then None else Some(StampSeconds(message, mk, found.value))
  }

  /** What `detectDuration` computes for one message: the media duration in
      seconds, or `None` when the expression does not match. */
  function DurationIn(message: string): (r: Option<real>)
    ensures r.Some? ==> r.value >= 0.0
  {
    DurationMarkerValid();
    StampIn(message, DurationMarker)
  }

  /** What `detectProgress` computes for one message: the elapsed time in
      seconds, or `None` when the expression does not match. */
  function ElapsedIn(message: string): (r: Option<real>)
    ensures r.Some? ==> r.value >= 0.0
  {
    ProgressMarkerValid();
    StampIn(message, ProgressMarker)
  }

  /** A message matches the duration (progress) expression exactly when it holds
      an occurrence of the marker followed by a timestamp; the value is then the
      seconds of the selected occurrence. */
  lemma MatchMeaning(message: string)
    ensures DurationIn(message).None? <==> forall p :: 0 <= p < |message| ==> !StampAt(message, DurationMarker, p)
    ensures ElapsedIn(message).None? <==> forall p :: 0 <= p < |message| ==> !StampAt(message, ProgressMarker, p)
    ensures DurationIn(message).Some? ==>
      var p := FindStamp(message, DurationMarker).value;
      Selected(message, DurationMarker, p) && DurationIn(message).value == StampSeconds(message, DurationMarker, p)
    ensures ElapsedIn(message).Some? ==>
      var p := FindStamp(message, ProgressMarker).value;
      Selected(message, ProgressMarker, p) && ElapsedIn(message).value == StampSeconds(message, ProgressMarker, p)
  {
    DurationMarkerShape();
    ProgressMarkerShape();
    FindStampSelects(message, DurationMarker);
    FindStampSelects(message, ProgressMarker);
  }

  /** The whole seconds of the reported value are the `HH:MM:SS` reading of the
      digit pairs and the digits after the point add less than one second; no
      reading reaches `99:99:99` plus one second. */
  lemma StampWholeSeconds(s: string, mk: Marker, p: nat)
    requires StampAt(s, mk, p)
    ensures var q := DigitsStart(mk, p);
      StampSeconds(s, mk, p).Floor ==
        (DigitValue(s[q]) * 10 + DigitValue(s[q + 1])) * 3600 +
        (DigitValue(s[q + 3]) * 10 + DigitValue(s[q + 4])) * 60 +
        DigitValue(s[q + 6]) * 10 + DigitValue(s[q + 7])
    ensures StampSeconds(s, mk, p) < 362440.0
  {
    var q := DigitsStart(mk, p);
    assert s[q..q + 2] == [s[q], s[q + 1]];
    assert s[q + 3..q + 5] == [s[q + 3], s[q + 4]];
    assert s[q + 6..q + 8] == [s[q + 6], s[q + 7]];
    DecimalValueOfTwo(s[q], s[q + 1]);
    DecimalValueOfTwo(s[q + 3], s[q + 4]);
    DecimalValueOfTwo(s[q + 6], s[q + 7]);
  }

  /** A timestamp as ffmpeg prints it: `HH:MM:SS.frac`. */
  predicate WellFormedClock(hh: string, mm: string, ss: string, frac: string) {
    |hh| == 2 && |mm| == 2 && |ss| == 2 && |frac| > 0 &&
    AllDigits(hh) && AllDigits(mm) && AllDigits(ss) && AllDigits(frac)
  }

  function ClockText(hh: string, mm: string, ss: string, frac: string): string {
    hh + ":" + mm + ":" + ss + "." + frac
  }

  /** The number of seconds a timestamp denotes: `h·3600 + m·60 + s + 0.frac`. */
  function ClockSeconds(hh: string, mm: string, ss: string, frac: string): real
    requires WellFormedClock(hh, mm, ss, frac)
  {
    (DecimalValue(hh) * 3600 + DecimalValue(mm) * 60 + DecimalValue(ss)) as real + Fraction(frac)
  }

  lemma DigitRunEndAt(s: string, i: nat, k: nat)
    requires i <= k <= |s| && AllDigits(s[i..k]) && (k < |s| ==> !IsDigit(s[k]))
    ensures DigitRunEnd(s, i) == k
  {
  }

  /** Where each part of a timestamp sits in its text. */
  lemma ClockTextLayout(hh: string, mm: string, ss: string, frac: string)
    requires WellFormedClock(hh, mm, ss, frac)
    ensures var c := ClockText(hh, mm, ss, frac);
      |c| == 9 + |frac| && c[..2] == hh && c[2] == ':' && c[3..5] == mm && c[5] == ':' &&
      c[6..8] == ss && c[8] == '.' && c[9..] == frac &&
      forall j :: 0 <= j < |c| ==> c[j] == ':' || c[j] == '.' || IsDigit(c[j])
  {
    var c := ClockText(hh, mm, ss, frac);
    assert c == hh + ":" + mm + ":" + ss + "." + frac;
    forall j | 0 <= j < |c| ensures c[j] == ':' || c[j] == '.' || IsDigit(c[j]) {
      if j < 2 { assert c[j] == hh[j]; }
      else if 3 <= j < 5 { assert c[j] == mm[j - 3]; }
      else if 6 <= j < 8 { assert c[j] == ss[j - 6]; }
      else if j >= 9 { assert c[j] == frac[j - 9]; }
    }
  }

  lemma SliceOfConcat(a: string, b: string, c: string, i: nat, j: nat)
    requires i <= j <= |b|
    ensures (a + b + c)[|a| + i..|a| + j] == b[i..j]
  {
    assert (a + b + c)[|a| + i..|a| + j] == (a + b + c)[|a|..|a| + |b|][i..j];
    assert (a + b + c)[|a|..|a| + |b|] == b;
  }

  /** The four groups read at `q` are the parts of the timestamp. */
  lemma StampFromParts(line: string, mk: Marker, p: nat, hh: string, mm: string, ss: string, frac: string)
    requires WellFormedClock(hh, mm, ss, frac)
    requires DigitsStart(mk, p) + 9 + |frac| <= |line|
    requires line[p..p + |mk.key|] == mk.key
    requires NoTerminator(line, p + |mk.key|, DigitsStart(mk, p))
    requires var q := DigitsStart(mk, p);
      line[q..q + 2] == hh && line[q + 3..q + 5] == mm && line[q + 6..q + 8] == ss &&
      line[q + 9..q + 9 + |frac|] == frac &&
      !IsLineTerminator(line[q + 2]) && !IsLineTerminator(line[q + 5]) && !IsLineTerminator(line[q + 8]) &&
      (q + 9 + |frac| < |line| ==> !IsDigit(line[q + 9 + |frac|]))
    ensures StampAt(line, mk, p) && StampSeconds(line, mk, p) == ClockSeconds(hh, mm, ss, frac)
  {
    var q := DigitsStart(mk, p);
    assert line[q] == hh[0] && line[q + 1] == hh[1];
    assert line[q + 3] == mm[0] && line[q + 4] == mm[1];
    assert line[q + 6] == ss[0] && line[q + 7] == ss[1];
    assert line[q + 9] == frac[0];
    DigitRunEndAt(line, q + 9, q + 9 + |frac|);
    SecondsFromParts(line, mk, p, hh, mm, ss, frac);
  }

  lemma SecondsFromParts(line: string, mk: Marker, p: nat, hh: string, mm: string, ss: string, frac: string)
    requires WellFormedClock(hh, mm, ss, frac) && StampAt(line, mk, p)
    requires var q := DigitsStart(mk, p);
      line[q..q + 2] == hh && line[q + 3..q + 5] == mm && line[q + 6..q + 8] == ss &&
      DigitRunEnd(line, q + 9) == q + 9 + |frac| && line[q + 9..q + 9 + |frac|] == frac
    ensures StampSeconds(line, mk, p) == ClockSeconds(hh, mm, ss, frac)
  {
  }

  /** Where the parts of a timestamp sit once the text is placed after `head`. */
  lemma ClockInLine(head: string, hh: string, mm: string, ss: string, frac: string, suffix: string)
    requires WellFormedClock(hh, mm, ss, frac)
    requires suffix == [] || !IsDigit(suffix[0])
    ensures var line := head + ClockText(hh, mm, ss, frac) + suffix; var q := |head|;
      q + 9 + |frac| <= |line| &&
      line[q..q + 2] == hh && line[q + 3..q + 5] == mm && line[q + 6..q + 8] == ss &&
      line[q + 9..q + 9 + |frac|] == frac &&
      !IsLineTerminator(line[q + 2]) && !IsLineTerminator(line[q + 5]) && !IsLineTerminator(line[q + 8]) &&
      (q + 9 + |frac| < |line| ==> !IsDigit(line[q + 9 + |frac|]))
  {
    var c := ClockText(hh, mm, ss, frac);
    var line := head + c + suffix;
    var q := |head|;
    ClockTextLayout(hh, mm, ss, frac);
    SliceOfConcat(head, c, suffix, 0, 2);
    SliceOfConcat(head, c, suffix, 3, 5);
    SliceOfConcat(head, c, suffix, 6, 8);
    SliceOfConcat(head, c, suffix, 9, |c|);
    assert line[q + 2] == c[2] && line[q + 5] == c[5] && line[q + 8] == c[8];
    if suffix != [] {
      assert line[q + 9 + |frac|] == suffix[0];
    }
  }

  /** The marker and the wildcard characters in front of the timestamp. */
  lemma MarkerInLine(prefix: string, mk: Marker, gapText: string, rest: string)
    requires |gapText| == mk.gap && forall j :: 0 <= j < |gapText| ==> !IsLineTerminator(gapText[j])
    ensures var line := prefix + mk.key + gapText + rest; var p := |prefix|;
      DigitsStart(mk, p) <= |line| &&
      line[p..p + |mk.key|] == mk.key && NoTerminator(line, p + |mk.key|, DigitsStart(mk, p))
  {
    var line := prefix + mk.key + gapText + rest;
    var p := |prefix|;
    SliceOfConcat(prefix, mk.key, gapText + rest, 0, |mk.key|);
    assert line == prefix + mk.key + (gapText + rest);
    forall k | p + |mk.key| <= k < DigitsStart(mk, p) ensures !IsLineTerminator(line[k]) {
      assert line[k] == gapText[k - p - |mk.key|];
    }
  }

  /** A marker followed by a timestamp denotes that timestamp's seconds,
      whatever surrounds it, as long as the fraction is not followed by a digit. */
  lemma StampValueOf(prefix: string, mk: Marker, gapText: string,
                     hh: string, mm: string, ss: string, frac: string, suffix: string)
    requires |gapText| == mk.gap && forall j :: 0 <= j < |gapText| ==> !IsLineTerminator(gapText[j])
    requires WellFormedClock(hh, mm, ss, frac)
    requires suffix == [] || !IsDigit(suffix[0])
    ensures var line := prefix + mk.key + gapText + ClockText(hh, mm, ss, frac) + suffix;
      StampAt(line, mk, |prefix|) && StampSeconds(line, mk, |prefix|) == ClockSeconds(hh, mm, ss, frac)
  {
    var head := prefix + mk.key + gapText;
    var c := ClockText(hh, mm, ss, frac);
    var line := head + c + suffix;
    MarkerInLine(prefix, mk, gapText, c + suffix);
    assert line == prefix + mk.key + gapText + (c + suffix);
    ClockInLine(head, hh, mm, ss, frac, suffix);
    StampFromParts(line, mk, |prefix|, hh, mm, ss, frac);
  }

  /** A line in which no other position holds the marker followed by a
      timestamp reports the one that does. */
  lemma SoleStamp(s: string, mk: Marker, p: nat)
    requires ValidMarker(mk) && StampAt(s, mk, p)
    requires forall i :: 0 <= i < |s| && i != p ==> !StampAt(s, mk, i)
    ensures FindStamp(s, mk) == Some(p)
  {
    FindStampSelects(s, mk);
  }

  /** The key occurs only at `|prefix|` when neither `prefix` nor `suffix`
      contains it and its first character recurs neither in the key itself
      nor in `mid`. */
  lemma KeyOccursOnce(prefix: string, key: string, mid: string, suffix: string)
    requires key != [] && key[0] !in key[1..] && key[0] !in mid
    requires !Contains(prefix, key) && !Contains(suffix, key)
    ensures var line := prefix + key + mid + suffix;
      forall i :: 0 <= i < |line| && i != |prefix| ==> !OccursAt(line, key, i)
  {
    var line := prefix + key + mid + suffix;
    var p := |prefix|;
    var head := prefix + key + mid;
    assert line == head + suffix;
    forall i | 0 <= i < |line| && i != p ensures !OccursAt(line, key, i) {
      if i + |key| <= |line| {
        var w := line[i..i + |key|];
        if i + |key| <= p {
          assert w == prefix[i..i + |key|] && !OccursAt(prefix, key, i);
        } else if i < p {
          assert w[p - i] == key[0] && key[p - i] == key[1..][p - i - 1];
        } else if i < |head| {
          assert w[0] == line[i];
          if i < p + |key| {
            assert line[i] == key[1..][i - p - 1];
          } else {
            assert line[i] == mid[i - p - |key|];
          }
        } else {
          assert w == suffix[i - |head|..i - |head| + |key|] && !OccursAt(suffix, key, i - |head|);
        }
      }
    }
  }

  lemma StampHoldsKey(s: string, mk: Marker, i: nat)
    requires StampAt(s, mk, i)
    ensures OccursAt(s, mk.key, i)
  {
  }

  /** A line holding the marker, then a timestamp, reports that timestamp when
      neither the text before the marker nor the text after the timestamp
      contains the marker's key. */
  lemma StampOfLine(prefix: string, mk: Marker, gapText: string,
                    hh: string, mm: string, ss: string, frac: string, suffix: string)
    requires ValidMarker(mk) && WellFormedClock(hh, mm, ss, frac)
    requires |gapText| == mk.gap && forall j :: 0 <= j < |gapText| ==> !IsLineTerminator(gapText[j])
    requires suffix == [] || !IsDigit(suffix[0])
    requires var x := mk.key[0];
      x !in mk.key[1..] && x !in gapText && x != ':' && x != '.' && !IsDigit(x)
    requires !Contains(prefix, mk.key) && !Contains(suffix, mk.key)
    ensures var line := prefix + mk.key + gapText + ClockText(hh, mm, ss, frac) + suffix;
      StampAt(line, mk, |prefix|) && FindStamp(line, mk) == Some(|prefix|) &&
      StampSeconds(line, mk, |prefix|) == ClockSeconds(hh, mm, ss, frac)
  {
    var c := ClockText(hh, mm, ss, frac);
    var mid := gapText + c;
    var line := prefix + mk.key + gapText + c + suffix;
    StampValueOf(prefix, mk, gapText, hh, mm, ss, frac, suffix);
    ClockTextLayout(hh, mm, ss, frac);
    assert mk.key[0] !in c;
    assert line == prefix + mk.key + mid + suffix;
    KeyOccursOnce(prefix, mk.key, mid, suffix);
    forall i | 0 <= i < |line| && i != |prefix| ensures !StampAt(line, mk, i) {
      if StampAt(line, mk, i) { StampHoldsKey(line, mk, i); }
    }
    SoleStamp(line, mk, |prefix|);
  }

  lemma JoinedKey(prefix: string, key: string, gapText: string, joined: string, c: string, suffix: string)
    requires joined == key + gapText
    ensures prefix + key + gapText + c + suffix == prefix + joined + c + suffix
  {
  }

  lemma DurationMarkerValid()
    ensures ValidMarker(DurationMarker)
  {
    DurationMarkerShape();
  }

  lemma ProgressMarkerValid()
    ensures ValidMarker(ProgressMarker)
  {
    ProgressMarkerShape();
  }

  /** Both markers start with a letter that does not recur in the key, its
      separator or a timestamp. */
  lemma DurationMarkerShape()
    ensures ValidMarker(DurationMarker)
    ensures var x := DurationMarker.key[0];
      x == 'D' && x !in DurationMarker.key[1..] && x !in ": " && x != ':' && x != '.' && !IsDigit(x)
    ensures "Duration: " == DurationMarker.key + ": "
  {
    assert DurationMarker.key[1..] == "uration";
  }

  lemma ProgressMarkerShape()
    ensures ValidMarker(ProgressMarker)
    ensures var x := ProgressMarker.key[0];
      x == 't' && x !in ProgressMarker.key[1..] && x !in "=" && x != ':' && x != '.' && !IsDigit(x)
    ensures "time=" == ProgressMarker.key + "="
  {
    assert ProgressMarker.key[1..] == "ime";
  }

  /** `Duration: HH:MM:SS.frac` yields that timestamp's seconds when the text
      around it does not contain `Duration` again. */
  lemma DurationOfLine(prefix: string, hh: string, mm: string, ss: string, frac: string, suffix: string)
    requires WellFormedClock(hh, mm, ss, frac)
    requires !Contains(prefix, "Duration") && !Contains(suffix, "Duration")
    requires suffix == [] || !IsDigit(suffix[0])
    ensures DurationIn(prefix + "Duration: " + ClockText(hh, mm, ss, frac) + suffix)
         == Some(ClockSeconds(hh, mm, ss, frac))
  {
    DurationMarkerShape();
    StampOfLine(prefix, DurationMarker, ": ", hh, mm, ss, frac, suffix);
    JoinedKey(prefix, DurationMarker.key, ": ", "Duration: ", ClockText(hh, mm, ss, frac), suffix);
  }

  /** `time=HH:MM:SS.frac` yields that timestamp's seconds when the text around
      it does not contain `time` again. */
  lemma ElapsedOfLine(prefix: string, hh: string, mm: string, ss: string, frac: string, suffix: string)
    requires WellFormedClock(hh, mm, ss, frac)
    requires !Contains(prefix, "time") && !Contains(suffix, "time")
    requires suffix == [] || !IsDigit(suffix[0])
    ensures ElapsedIn(prefix + "time=" + ClockText(hh, mm, ss, frac) + suffix)
         == Some(ClockSeconds(hh, mm, ss, frac))
  {
    ProgressMarkerShape();
    StampOfLine(prefix, ProgressMarker, "=", hh, mm, ss, frac, suffix);
    JoinedKey(prefix, ProgressMarker.key, "=", "time=", ClockText(hh, mm, ss, frac), suffix);
  }

  lemma DurationClock()
    ensures WellFormedClock("00", "03", "07", "50")
    ensures ClockText("00", "03", "07", "50") == "00:03:07.50"
    ensures ClockSeconds("00", "03", "07", "50") == 187.5
  {
    DecimalValueOfTwo('0', '0');
    DecimalValueOfTwo('0', '3');
    DecimalValueOfTwo('0', '7');
    DecimalValueOfTwo('5', '0');
    assert Pow10(2) == 100;
  }

  lemma DurationLineHead()
    ensures "  " + "Duration: " + "00:03:07.50" + ", start: 0.000000" == "  Duration: 00:03:07.50, start: 0.000000"
  {
    assert "  " + "Duration: " + "00:03:07.50" == "  Duration: 00:03:07.50";
  }

  lemma DurationLineText(suffix: string)
    requires suffix == ", start: 0.000000" + ", bitrate: 1411 kb/s"
    ensures "  " + "Duration: " + "00:03:07.50" + suffix
         == "  Duration: 00:03:07.50, start: 0.000000, bitrate: 1411 kb/s"
    ensures !Contains(suffix, "Duration") && !IsDigit(suffix[0])
  {
    DurationLineHead();
    var head := "  " + "Duration: " + "00:03:07.50";
    assert head + suffix == head + ", start: 0.000000" + ", bitrate: 1411 kb/s";
    assert "  Duration: 00:03:07.50, start: 0.000000" + ", bitrate: 1411 kb/s"
        == "  Duration: 00:03:07.50, start: 0.000000, bitrate: 1411 kb/s";
    assert 'D' !in suffix;
    NotContainsCat(suffix, [], "Duration");
    assert suffix + [] == suffix;
  }

  /** The duration line ffmpeg prints for a 3 minute 7.5 second input. */
  lemma DurationExample(line: string)
    requires line == "  Duration: 00:03:07.50, start: 0.000000, bitrate: 1411 kb/s"
    ensures DurationIn(line) == Some(187.5)
  {
    var suffix := ", start: 0.000000" + ", bitrate: 1411 kb/s";
    DurationLineText(suffix);
    DurationClock();
    DurationOfLine("  ", "00", "03", "07", "50", suffix);
  }

  lemma ProgressClock()
    ensures WellFormedClock("00", "01", "40", "00")
    ensures ClockText("00", "01", "40", "00") == "00:01:40.00"
    ensures ClockSeconds("00", "01", "40", "00") == 100.0
  {
    DecimalValueOfTwo('0', '0');
    DecimalValueOfTwo('0', '1');
    DecimalValueOfTwo('4', '0');
    assert Pow10(2) == 100;
  }

  /** Text made of pieces without `t`, joined by `t`s none of which is followed
      by `i`, does not contain `time`. */
  lemma NoTimeBetween(a: string, b: string, c: string, d: string)
    requires 't' !in a && 't' !in b && 't' !in c && 't' !in d
    requires b != [] && b[0] != 'i' && c != [] && c[0] != 'i' && d != [] && d[0] != 'i'
    ensures !Contains(a + "t" + b + "t" + c + "t" + d, "time")
  {
    NotContainsCat(d, [], "time");
    assert d + [] == d;
    NotContainsHead('t', d, "time");
    NotContainsCat(c, ['t'] + d, "time");
    NotContainsHead('t', c + (['t'] + d), "time");
    NotContainsCat(b, ['t'] + (c + (['t'] + d)), "time");
    NotContainsHead('t', b + (['t'] + (c + (['t'] + d))), "time");
    NotContainsCat(a, ['t'] + (b + (['t'] + (c + (['t'] + d)))), "time");
    assert a + "t" + b + "t" + c + "t" + d == a + (['t'] + (b + (['t'] + (c + (['t'] + d)))));
  }

  lemma ProgressTailPieces(suffix: string)
    requires suffix == " bitrate=  83.9kbits/s speed=12.5x"
    ensures suffix == " bi" + "t" + "ra" + "t" + "e=  83.9kbi" + "t" + "s/s speed=12.5x"
  {
  }

  /** The statistics after the timestamp hold three `t`s, none followed by `i`. */
  lemma ProgressLineTail(suffix: string)
    requires suffix == " bitrate=  83.9kbits/s speed=12.5x"
    ensures !Contains(suffix, "time") && !IsDigit(suffix[0])
  {
    ProgressTailPieces(suffix);
    assert 't' !in " bi" && 't' !in "ra" && 't' !in "e=  83.9kbi" && 't' !in "s/s speed=12.5x";
    NoTimeBetween(" bi", "ra", "e=  83.9kbi", "s/s speed=12.5x");
  }

  /** The statistics in front of the timestamp hold no `t` at all. */
  lemma ProgressLineHead(prefix: string)
    requires prefix == "size=    1024kB "
    ensures !Contains(prefix, "time")
  {
    assert 't' !in prefix;
    NotContainsCat(prefix, [], "time");
    assert prefix + [] == prefix;
  }

  lemma ProgressLineStart()
    ensures "size=    1024kB " + "time=" + "00:01:40.00" == "size=    1024kB time=00:01:40.00"
  {
  }

  lemma ProgressLineText()
    ensures "size=    1024kB " + "time=" + "00:01:40.00" + " bitrate=  83.9kbits/s speed=12.5x"
         == "size=    1024kB time=00:01:40.00 bitrate=  83.9kbits/s speed=12.5x"
  {
    ProgressLineStart();
    assert "size=    1024kB time=00:01:40.00" + " bitrate=  83.9kbits/s speed=12.5x"
        == "size=    1024kB time=00:01:40.00 bitrate=  83.9kbits/s speed=12.5x";
  }

  /** The statistics line cut around its timestamp. */
  lemma ProgressLineParts(line: string) returns (prefix: string, suffix: string)
    requires line == "size=    1024kB time=00:01:40.00 bitrate=  83.9kbits/s speed=12.5x"
    ensures line == prefix + "time=" + ClockText("00", "01", "40", "00") + suffix
    ensures !Contains(prefix, "time") && !Contains(suffix, "time")
    ensures suffix == [] || !IsDigit(suffix[0])
  {
    prefix := "size=    1024kB ";
    suffix := " bitrate=  83.9kbits/s speed=12.5x";
    ProgressLineText();
    ProgressClock();
    ProgressLineHead(prefix);
    ProgressLineTail(suffix);
  }

  /** The statistics line of an audio-only conversion, half-way through a
      200-second input: the progress handler receives 50. */
  lemma ProgressExample(line: string)
    requires line == "size=    1024kB time=00:01:40.00 bitrate=  83.9kbits/s speed=12.5x"
    ensures ElapsedIn(line) == Some(100.0)
    ensures ProgressValueFor(100.0, Some(200.0)) == Percent(50)
  {
    var prefix, suffix := ProgressLineParts(line);
    ProgressClock();
    ElapsedOfLine(prefix, "00", "01", "40", "00", suffix);
  }

  /** While the elapsed time does not exceed the known duration the ratio is a percentage. */
  lemma PercentWithinRange(elapsed: real, duration: real)
    requires 0.0 <= elapsed <= duration && duration > 0.0
    ensures ProgressValueFor(elapsed, Some(duration)).Percent?
    ensures 0 <= ProgressValueFor(elapsed, Some(duration)).percent <= 100
  {
    ProgressValueMeaning(elapsed, Some(duration));
    var k := ProgressValueFor(elapsed, Some(duration)).percent;
    CancelPositive(k as real, 100.0, duration);
    CancelPositive(-1.0, k as real, duration);
  }

  lemma CancelPositive(a: real, b: real, d: real)
    requires d > 0.0 && a * d <= b * d
    ensures a <= b
  {
    var q := b - a;
    assert q * d == b * d - a * d;
    NonNegativeFactor(q, d);
  }

  lemma NonNegativeFactor(q: real, d: real)
    requires d > 0.0 && q * d >= 0.0
    ensures q >= 0.0
  {
    var r := q * d;
    assert q == r / d;
  }

  /** The substrings of `detectCompletion`: one success summary and three
      fatal-error phrasings. */
  const MuxingOverhead := "kB muxing overhead"
  const InvalidArgument := "Invalid argument"
  const InvalidData := "Invalid data found"
  const NoOutputFile := "At least one output file"

  predicate IsCompletionMarker(message: string) {
    Contains(message, MuxingOverhead) || Contains(message, InvalidArgument) ||
    Contains(message, InvalidData) || Contains(message, NoOutputFile)
  }

  /** `includes`, not `startsWith`: a marker anywhere in a line completes the run. */
  lemma MarkerAnywhere(prefix: string, marker: string, suffix: string)
    requires marker == MuxingOverhead || marker == InvalidArgument || marker == InvalidData || marker == NoOutputFile
    ensures IsCompletionMarker(prefix + marker + suffix)
  {
    var line := prefix + marker + suffix;
    assert line[|prefix|..|prefix| + |marker|] == marker;
    assert OccursAt(line, marker, |prefix|);
  }

  /** The number handed to the progress handler. `Seconds` is the raw elapsed
      time used while no duration is known; `Percent` is the floored ratio;
      the last two are what `Math.floor(x / 0 * 100)` yields for a zero duration. */
  datatype ProgressValue = Seconds(seconds: real) | Percent(percent: int) | PlusInfinity | NotANumber

  function ProgressValueFor(elapsed: real, duration: Option<real>): (v: ProgressValue)
    requires elapsed >= 0.0
    requires duration.Some? ==> duration.value >= 0.0
    ensures v.Seconds? <==> duration.None?
    ensures v.Percent? <==> duration.Some? && duration.value > 0.0
  {
    match duration
    case None => Seconds(elapsed)
    case Some(d) =>
      if d == 0.0 then (if elapsed > 0.0 then PlusInfinity else NotANumber)
      else Percent((elapsed / d * 100.0).Floor)
  }

  /** The raw seconds while no duration is known; otherwise the largest whole
      percentage not above the ratio; infinity or NaN for a zero duration. */
  lemma ProgressValueMeaning(elapsed: real, duration: Option<real>)
    requires elapsed >= 0.0
    requires duration.Some? ==> duration.value >= 0.0
    ensures var v := ProgressValueFor(elapsed, duration);
      (duration.None? ==> v == Seconds(elapsed)) &&
      (duration.Some? && duration.value > 0.0 ==>
         v.Percent? &&
         v.percent as real * duration.value <= elapsed * 100.0 < (v.percent + 1) as real * duration.value) &&
      (duration == Some(0.0) ==> v == if elapsed > 0.0 then PlusInfinity else NotANumber)
  {
    if duration.Some? && duration.value > 0.0 {
      FloorScaled(elapsed / duration.value * 100.0, duration.value, elapsed * 100.0);
    }
  }

  lemma FloorScaled(x: real, d: real, y: real)
    requires d > 0.0 && x == y / d
    ensures x.Floor as real * d <= y
    ensures y < (x.Floor + 1) as real * d
  {
    var k := x.Floor as real;
    assert k <= x < k + 1.0;
    assert x * d == y;
    var e := k + 1.0 - x;
    assert e * d > 0.0;
    assert (k + 1.0) * d == e * d + x * d;
    assert y < (k + 1.0) * d;
    assert (x.Floor + 1) as real == k + 1.0;
    assert (x - k) * d >= 0.0;
  }
}
