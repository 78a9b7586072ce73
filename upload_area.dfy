/** The pure helpers of the upload screen: the `m:ss` clock text, the name
    given to a downloaded file, and the test a dropped or picked file must
    pass to be loaded. */
module UploadArea {
  import opened Prelude
  import opened Text

  // ---------------------------------------------------------------- formatTime

  /** A JavaScript number as far as `formatTime` cares: a finite value, or one
      of the values `Number.isFinite` rejects. Finite values are exact reals
      here; IEEE rounding is not modelled. */
  datatype Number = Finite(value: real) | PositiveInfinity | NegativeInfinity | NaN

  /** `Math.trunc`. */
  function Trunc(x: real): (r: int)
    ensures x >= 0.0 ==> r == x.Floor
    ensures x < 0.0 ==> r == -((-x).Floor)
  {
    if x >= 0.0 then x.Floor else -((-x).Floor)
  }

  /** JavaScript's `%` on numbers: the remainder of truncating division, so it
      takes the sign of the dividend. */
  function Remainder(x: real, d: real): (r: real)
    requires d != 0.0
  {
    x - d * Trunc(x / d) as real
  }

  /** `formatTime(t)`: minutes, a colon, and whole seconds padded with a "0"
      below ten; "0:00" for a value that is not finite. */
  function FormatTime(t: Number): (r: string)
    ensures !t.Finite? ==> r == "0:00"
  {
    match t
    case Finite(x) =>
      var m := (x / 60.0).Floor;
      var s := Remainder(x, 60.0).Floor;
      IntToString(m) + ":" + (if s < 10 then "0" else "") + IntToString(s)
    case _ => "0:00"
  }

  /** Seconds below sixty as exactly two digits. */
  function TwoDigits(v: nat): (r: string)
    requires v < 60
    ensures |r| == 2 && AllDigits(r)
  {
    [DigitChar(v / 10), DigitChar(v % 10)]
  }

  /** For a time that is not negative the minutes are the whole seconds
      divided by sixty and the seconds are the rest, in two digits. */
  lemma FormatTimeOfNonNegative(x: real)
    requires x >= 0.0
    ensures var n := x.Floor;
      n >= 0 && FormatTime(Finite(x)) == NatToString(n / 60) + ":" + TwoDigits(n % 60)
  {
    var n := x.Floor;
    var q, s := n / 60, n % 60;
    assert q * 60 + s == n;
    assert (x / 60.0).Floor == q;
    assert Trunc(x / 60.0) == q;
    assert Remainder(x, 60.0) == x - 60.0 * q as real;
    assert Remainder(x, 60.0).Floor == s;
    if s < 10 {
      assert NatToString(s) == [DigitChar(s)];
      assert TwoDigits(s) == "0" + NatToString(s);
    } else {
      assert NatToString(s / 10) == [DigitChar(s / 10)];
      assert NatToString(s) == [DigitChar(s / 10)] + [DigitChar(s % 10)];
    }
  }

  /** Reading the clock text back: it splits at its one colon into the minutes
      and two digits of seconds below sixty that add up to the whole seconds. */
  lemma FormatTimeReadsBack(x: real)
    requires x >= 0.0
    ensures var parts := Split(FormatTime(Finite(x)), ':');
      |parts| == 2 && AllDigits(parts[0]) && AllDigits(parts[1]) && |parts[1]| == 2 &&
      DecimalValue(parts[1]) < 60 &&
      DecimalValue(parts[0]) * 60 + DecimalValue(parts[1]) == x.Floor
  {
    var n := x.Floor;
    FormatTimeOfNonNegative(x);
    var minutes, seconds := NatToString(n / 60), TwoDigits(n % 60);
    assert ':' !in minutes;
    assert ':' !in seconds;
    SplitAtFirst(minutes, seconds, ':');
    SplitWithoutSeparator(seconds, ':');
    assert minutes + ":" + seconds == minutes + [':'] + seconds;
    NatToStringRoundTrip(n / 60);
    DecimalValueOfTwo(DigitChar((n % 60) / 10), DigitChar((n % 60) % 10));
  }

  /** A negative time is not clamped: `%` keeps the sign, so minus five
      seconds reads "-1:0-5". */
  lemma FormatTimeOfNegative()
    ensures FormatTime(Finite(-5.0)) == "-1:0-5"
  {
    assert (-5.0 / 60.0).Floor == -1;
    assert Trunc(-5.0 / 60.0) == 0;
    assert Remainder(-5.0, 60.0).Floor == -5;
    assert NatToString(1) == "1" && NatToString(5) == "5";
  }

  // ---------------------------------------------------------------- download name

  /** `\w`: an ASCII letter, digit or underscore. */
  predicate IsWordChar(c: char) {
    'a' <= c <= 'z' || 'A' <= c <= 'Z' || '0' <= c <= '9' || c == '_'
  }

  /** `/\.\w+$/` matches at `i`: a dot followed by at least one word character
      and nothing else up to the end. */
  predicate ExtensionAt(s: string, i: nat) {
    i + 1 < |s| && s[i] == '.' && forall j :: i < j < |s| ==> IsWordChar(s[j])
  }

  /** The length of the longest run of word characters that ends `s`. */
  function WordRun(s: string): (k: nat)
    ensures k <= |s|
    ensures forall j :: |s| - k <= j < |s| ==> IsWordChar(s[j])
    ensures k < |s| ==> !IsWordChar(s[|s| - k - 1])
  {
    if s == [] || !IsWordChar(s[|s| - 1]) then 0 else WordRun(s[..|s| - 1]) + 1
  }

  /** `fileName.replace(/\.\w+$/, "")`: what is left is a prefix of the
      name, and what goes is a match of the pattern. */
  function StripExtension(s: string): (r: string)
    ensures StartsWith(s, r)
    ensures |r| < |s| ==> ExtensionAt(s, |r|)
  {
    var k := WordRun(s);
    if 0 < k < |s| && s[|s| - k - 1] == '.' then s[..|s| - k - 1] else s
  }

  /** The pattern can match at one place at most: the dot after which only
      word characters follow. */
  lemma ExtensionUnique(s: string, i: nat, j: nat)
    requires ExtensionAt(s, i) && ExtensionAt(s, j)
    ensures i == j
  {
    StripExtensionRemoves(s, i);
    StripExtensionRemoves(s, j);
  }

  /** Where the pattern matches, everything from the dot on is removed. */
  lemma StripExtensionRemoves(s: string, i: nat)
    requires ExtensionAt(s, i)
    ensures StripExtension(s) == s[..i]
  {
    var k := WordRun(s);
    assert !IsWordChar(s[i]);
    assert k == |s| - i - 1;
  }

  /** Where it matches nowhere, the name is kept whole. */
  lemma StripExtensionKeeps(s: string)
    requires forall i: nat :: !ExtensionAt(s, i)
    ensures StripExtension(s) == s
  {
    var k := WordRun(s);
    if 0 < k < |s| && s[|s| - k - 1] == '.' {
      assert ExtensionAt(s, |s| - k - 1);
    }
  }

  /** Only the last extension goes. */
  lemma StripExtensionOfDoubleExtension()
    ensures StripExtension("mix.tar.gz") == "mix.tar"
  {
    StripExtensionRemoves("mix.tar.gz", 7);
  }

  /** `${fileName.replace(/\.\w+$/, "")}_${rateStr}x.${format}` where
      `rateStr` is the rate's text with its first "." turned into "_". The
      rate's text is a parameter: `Number.prototype.toString` is not part of
      this model. */
  function DownloadName(fileName: string, rateText: string, format: string): (r: string)
    ensures StartsWith(r, StripExtension(fileName) + "_")
    ensures EndsWith(r, "x." + format)
  {
    StripExtension(fileName) + "_" + ReplaceFirst(rateText, '.', '_') + "x." + format
  }

  /** A name with an extension and a fractional rate: the extension is
      replaced by the rate with "_" for its decimal point, "x" and the format. */
  lemma DownloadNameOfFraction(base: string, ext: string, whole: string, fraction: string, format: string)
    requires |ext| > 0 && forall j :: 0 <= j < |ext| ==> IsWordChar(ext[j])
    requires '.' !in whole
    ensures DownloadName(base + "." + ext, whole + "." + fraction, format) ==
      base + "_" + whole + "_" + fraction + "x." + format
  {
    var name := base + "." + ext;
    assert ExtensionAt(name, |base|);
    StripExtensionRemoves(name, |base|);
    assert name[..|base|] == base;
    ReplaceFirstOf(whole, fraction, '.', '_');
    assert whole + "." + fraction == whole + ['.'] + fraction;
  }

  /** A whole-number rate has no "." and is used as it is. */
  lemma DownloadNameOfWhole(base: string, ext: string, rate: string, format: string)
    requires |ext| > 0 && forall j :: 0 <= j < |ext| ==> IsWordChar(ext[j])
    requires '.' !in rate
    ensures DownloadName(base + "." + ext, rate, format) == base + "_" + rate + "x." + format
  {
    var name := base + "." + ext;
    assert ExtensionAt(name, |base|);
    StripExtensionRemoves(name, |base|);
    assert name[..|base|] == base;
    ReplaceFirstAbsent(rate, '.', '_');
  }

  lemma DownloadNameExample()
    ensures DownloadName("song.mp3", "1.25", "mp3") == "song_1_25x.mp3"
  {
    var base, ext, whole, fraction := "song", "mp3", "1", "25";
    ExampleSpelling();
    assert forall j :: 0 <= j < |ext| ==> IsWordChar(ext[j]);
    DownloadNameOfFraction(base, ext, whole, fraction, ext);
  }

  /** How the example's strings are put together. */
  lemma ExampleSpelling()
    ensures "song.mp3" == "song" + "." + "mp3" && "1.25" == "1" + "." + "25" && '.' !in "1"
    ensures "song" + "_" + "1" + "_" + "25" + "x." + "mp3" == "song_1_25x.mp3"
  {
  }

  // ---------------------------------------------------------------- accepted files

  /** What the drop and click handlers look at in a `File`. */
  datatype PickedFile = PickedFile(name: string, mimeType: string)

  /** `name.match(/\.(mp3|wav|m4a|aac|ogg)$/i)` succeeds. The pattern is ASCII
      and has no `u` flag, so ignoring case means comparing ASCII-lower-cased
      characters. */
  predicate HasAudioExtension(name: string)
    ensures HasAudioExtension(name) ==> |name| >= 4 && name[|name| - 4] == '.'
  {
    var lower := Lower(name);
    EndsWith(lower, "." + "mp3") || EndsWith(lower, "." + "wav") || EndsWith(lower, "." + "m4a") ||
    EndsWith(lower, "." + "aac") || EndsWith(lower, "." + "ogg")
  }

  /** `file && (file.type.startsWith("audio/") || file.name.match(...))`: there
      is a file, and its type or its name says it is audio. */
  predicate Accepts(file: Option<PickedFile>)
    ensures file.None? ==> !Accepts(file)
    ensures file.Some? && StartsWith(file.value.mimeType, "audio/") ==> Accepts(file)
  {
    file.Some? && (StartsWith(file.value.mimeType, "audio/") || HasAudioExtension(file.value.name))
  }

  /** The name ends in a dot and `ext`, letters compared without case. */
  predicate EndsInExtension(name: string, ext: string) {
    |name| > |ext| && name[|name| - |ext| - 1] == '.' &&
    forall j :: 0 <= j < |ext| ==> LowerAscii(name[|name| - |ext| + j]) == ext[j]
  }

  lemma EndsWithLower(name: string, ext: string)
    requires forall j :: 0 <= j < |ext| ==> ext[j] == LowerAscii(ext[j])
    ensures EndsWith(Lower(name), "." + ext) <==> EndsInExtension(name, ext)
  {
    var lower := Lower(name);
    if EndsWith(lower, "." + ext) {
      LowerSuffixForward(lower, name, ext);
    }
    if EndsInExtension(name, ext) {
      LowerSuffixBackward(lower, name, ext);
    }
  }

  /** A lower-cased name that ends in `.ext` comes from a name that ends in a
      dot and `ext` up to case. */
  lemma LowerSuffixForward(lower: string, name: string, ext: string)
    requires |lower| == |name| && forall i :: 0 <= i < |name| ==> lower[i] == LowerAscii(name[i])
    requires EndsWith(lower, "." + ext)
    ensures EndsInExtension(name, ext)
  {
    var suffix := "." + ext;
    var off := |name| - |suffix|;
    assert lower[off] == suffix[0] == '.';
    forall j | 0 <= j < |ext|
      ensures LowerAscii(name[|name| - |ext| + j]) == ext[j]
    {
      assert lower[off..][j + 1] == suffix[j + 1];
    }
  }

  /** The converse: such a name lower-cases to one that ends in `.ext`. */
  lemma LowerSuffixBackward(lower: string, name: string, ext: string)
    requires |lower| == |name| && forall i :: 0 <= i < |name| ==> lower[i] == LowerAscii(name[i])
    requires forall j :: 0 <= j < |ext| ==> ext[j] == LowerAscii(ext[j])
    requires EndsInExtension(name, ext)
    ensures EndsWith(lower, "." + ext)
  {
    var suffix := "." + ext;
    var off := |name| - |suffix|;
    forall j | 0 <= j < |suffix|
      ensures lower[off..][j] == suffix[j]
    {
      if j > 0 {
        assert LowerAscii(name[|name| - |ext| + (j - 1)]) == ext[j - 1];
      }
    }
  }

  /** A file is accepted exactly when it exists and either its MIME type
      starts with "audio/" or its name ends in one of the five extensions in
      any mix of cases. */
  lemma AcceptsIff(file: Option<PickedFile>)
    ensures Accepts(file) <==>
      file.Some? &&
      (StartsWith(file.value.mimeType, "audio/") ||
       EndsInExtension(file.value.name, "mp3") || EndsInExtension(file.value.name, "wav") ||
       EndsInExtension(file.value.name, "m4a") || EndsInExtension(file.value.name, "aac") ||
       EndsInExtension(file.value.name, "ogg"))
  {
    if file.Some? {
      var name := file.value.name;
      EndsWithLower(name, "mp3"); EndsWithLower(name, "wav"); EndsWithLower(name, "m4a");
      EndsWithLower(name, "aac"); EndsWithLower(name, "ogg");
    }
  }

  lemma AcceptsUpperCaseName()
    ensures Accepts(Some(PickedFile("Track.MP3", "")))
  {
    var file := PickedFile("Track.MP3", "");
    assert EndsInExtension(file.name, "mp3");
    AcceptsIff(Some(file));
  }

  lemma AcceptsAudioType()
    ensures Accepts(Some(PickedFile("memo", "audio/webm")))
  {
    assert "audio/webm"[..6] == "audio/";
  }

  /** Every audio extension is three letters starting with m, w, a or o, so
      a name whose third-last character is none of these (in either case) is
      accepted only on its type. */
  lemma RejectsByLetter(file: PickedFile)
    requires !StartsWith(file.mimeType, "audio/")
    requires |file.name| >= 3 && LowerAscii(file.name[|file.name| - 3]) !in "mwao"
    ensures !Accepts(Some(file))
  {
    AcceptsIff(Some(file));
  }

  /** Cases that are turned away: another type and extension, an audio
      extension that is not the last one, and no file at all. */
  lemma RejectsOtherFiles()
    ensures !Accepts(Some(PickedFile("notes.txt", "text/plain")))
    ensures !Accepts(Some(PickedFile("clip.mp3.txt", "")))
    ensures !Accepts(None)
  {
    var notes, clip := PickedFile("notes.txt", "text/plain"), PickedFile("clip.mp3.txt", "");
    assert notes.mimeType[0] != "audio/"[0];
    assert LowerAscii(notes.name[6]) == 't' && LowerAscii(clip.name[9]) == 't';
    RejectsByLetter(notes);
    RejectsByLetter(clip);
  }
}
