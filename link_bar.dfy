/** `extractVideoId` of the YouTube link bar: two regular expressions tried in
    order, the first one that matches decides. The first pattern

      (?:youtube\.com\/(?:[^\/]+\/.+\/|(?:v|e(?:mbed)?)\/|.*[?&]v=)|youtu\.be\/)([^"&?\/\s]{11})

    with the `i` flag is searched for anywhere in the link, and its group
    holds the eleven characters returned. The second, `^[^"&?\/\s]{11}$`, has
    no group, so its match yields `undefined`. The search below follows the
    backtracking order of the JavaScript regular expression engine: leftmost
    start first, then the alternatives in the order written, greedy
    repetitions longest first. Strings are sequences of Unicode scalar values,
    so `{11}` counts characters, where JavaScript without the `u` flag counts
    UTF-16 code units; the two agree on text in the Basic Multilingual Plane. */
module LinkBar {
  import opened Prelude
  import opened Text

  /** What `extractVideoId` returns: a string, `undefined` or `null`. */
  datatype Extracted = Id(id: string) | Undefined | Null

  /** The characters `.` does not match: the line terminators. */
  predicate IsLineTerminator(c: char) {
    c == '\n' || c == '\r' || c == '\U{2028}' || c == '\U{2029}'
  }

  /** `\s`: white space and line terminators. */
  predicate IsSpace(c: char) {
    c == '\t' || c == '\n' || c == '\U{000B}' || c == '\U{000C}' || c == '\r' || c == ' ' ||
    c == '\U{00A0}' || c == '\U{1680}' || '\U{2000}' <= c <= '\U{200A}' ||
    c == '\U{2028}' || c == '\U{2029}' || c == '\U{202F}' || c == '\U{205F}' ||
    c == '\U{3000}' || c == '\U{FEFF}'
  }

  /** `[^"&?\/\s]`; none of these characters has another case, so the `i` flag
      does not change the class. */
  predicate IdChar(c: char) {
    c != '"' && c != '&' && c != '?' && c != '/' && !IsSpace(c)
  }

  const IdLength := 11

  /** `([^"&?\/\s]{11})` matches at `k`. */
  predicate IdAt(s: string, k: nat) {
    k + IdLength <= |s| && forall t :: k <= t < k + IdLength ==> IdChar(s[t])
  }

  /** The lower-case ASCII text `lit` occurs at `k`, ignoring case. */
  predicate CharsAt(s: string, k: nat, lit: string) {
    k + |lit| <= |s| && Lower(s[k..k + |lit|]) == lit
  }

  /** Where the run of characters `.` can match, starting at `j`, ends. */
  function RunEnd(s: string, j: nat): (e: nat)
    requires j <= |s|
    ensures j <= e <= |s|
    ensures forall t :: j <= t < e ==> !IsLineTerminator(s[t])
    ensures e < |s| ==> IsLineTerminator(s[e])
    decreases |s| - j
  {
    if j == |s| || IsLineTerminator(s[j]) then j else RunEnd(s, j + 1)
  }

  /** The tail `\/([^"&?\/\s]{11})` of `.+\/` tried with the longest `.+`
      first: the largest `q` in `lo..hi` with a "/" at `q` and an identifier
      after it. The result is where the group starts. */
  function SlashBack(s: string, lo: nat, hi: nat): (r: Option<nat>)
    ensures r.Some? ==> lo + 1 <= r.value <= hi + 1 && IdAt(s, r.value) && s[r.value - 1] == '/'
    ensures r.Some? ==> forall q :: r.value <= q <= hi ==> !(q < |s| && s[q] == '/' && IdAt(s, q + 1))
    ensures r.None? ==> forall q :: lo <= q <= hi ==> !(q < |s| && s[q] == '/' && IdAt(s, q + 1))
    decreases hi
  {
    if hi < lo then None
    else if hi < |s| && s[hi] == '/' && IdAt(s, hi + 1) then Some(hi + 1)
    else if hi == lo then None
    else SlashBack(s, lo, hi - 1)
  }

  /** The tail `[?&]v=([^"&?\/\s]{11})` of `.*[?&]v=`, longest `.*` first. */
  function QueryBack(s: string, lo: nat, hi: nat): (r: Option<nat>)
    ensures r.Some? ==> lo + 3 <= r.value <= hi + 3 && IsQueryAt(s, r.value - 3)
    ensures r.Some? ==> forall q :: r.value - 3 < q <= hi ==> !IsQueryAt(s, q)
    ensures r.None? ==> forall q :: lo <= q <= hi ==> !IsQueryAt(s, q)
    decreases hi
  {
    if hi < lo then None
    else if IsQueryAt(s, hi) then Some(hi + 3)
    else if hi == lo then None
    else QueryBack(s, lo, hi - 1)
  }

  /** `[?&]v=` at `q` followed by an identifier. */
  predicate IsQueryAt(s: string, q: nat) {
    q < |s| && (s[q] == '?' || s[q] == '&') && CharsAt(s, q + 1, "v=") && IdAt(s, q + 3)
  }

  /** `[^\/]+\/.+\/` then the group, from `j`. `[^\/]+` has to stop right
      before a "/", and only the first "/" after `j` can be that one. */
  function NestedPath(s: string, j: nat): (r: Option<nat>)
    requires j <= |s|
    ensures r.Some? ==> IdAt(s, r.value) && r.value > j
  {
    var p := IndexOfFrom(s, '/', j);
    if p == j || p == |s| then None else SlashBack(s, p + 2, RunEnd(s, p + 1))
  }

  /** `(?:v|e(?:mbed)?)\/` then the group, from `j`: "v/", then "embed/", then "e/". */
  function ShortPath(s: string, j: nat): (r: Option<nat>)
    ensures r.Some? ==> IdAt(s, r.value) && r.value > j
  {
    if CharsAt(s, j, "v/") && IdAt(s, j + 2) then Some(j + 2)
    else if CharsAt(s, j, "embed/") && IdAt(s, j + 6) then Some(j + 6)
    else if CharsAt(s, j, "e/") && IdAt(s, j + 2) then Some(j + 2)
    else None
  }

  /** `.*[?&]v=` then the group, from `j`. */
  function QueryPath(s: string, j: nat): (r: Option<nat>)
    requires j <= |s|
    ensures r.Some? ==> IdAt(s, r.value) && r.value > j
  {
    QueryBack(s, j, RunEnd(s, j))
  }

  /** `youtu\.be\/` then the group, at `i`. */
  function ShortLink(s: string, i: nat): (r: Option<nat>)
    ensures r.Some? ==> IdAt(s, r.value) && r.value == i + 9
  {
    if CharsAt(s, i, "youtu.be/") && IdAt(s, i + 9) then Some(i + 9) else None
  }

  /** The alternatives of the first pattern in the order the engine tries
      them: the three that follow `youtube.com/`, then `youtu.be/`. */
  datatype Alternative = Nested | Short | Query | ShortHost

  const Alternatives: seq<Alternative> := [Nested, Short, Query, ShortHost]

  /** One alternative at `i`: where the group starts if it matches. */
  function TryAlternative(s: string, i: nat, alt: Alternative): (r: Option<nat>)
    requires i <= |s|
    ensures r.Some? ==> IdAt(s, r.value) && r.value > i
  {
    match alt
    case Nested => if CharsAt(s, i, "youtube.com/") then NestedPath(s, i + 12) else None
    case Short => if CharsAt(s, i, "youtube.com/") then ShortPath(s, i + 12) else None
    case Query => if CharsAt(s, i, "youtube.com/") then QueryPath(s, i + 12) else None
    case ShortHost => ShortLink(s, i)
  }

  /** Alternatives tried in order; the first that matches decides. */
  function TryInOrder(s: string, i: nat, alts: seq<Alternative>): (r: Option<nat>)
    requires i <= |s|
    ensures r.Some? ==> IdAt(s, r.value) && r.value > i
  {
    if alts == [] then None
    else
      var r := TryAlternative(s, i, alts[0]);
      if r.Some? then r else TryInOrder(s, i, alts[1..])
  }

  /** The first pattern tried at `i`: where its group starts, if it matches. */
  function MatchAt(s: string, i: nat): (r: Option<nat>)
    requires i <= |s|
    ensures r.Some? ==> IdAt(s, r.value) && r.value > i
  {
    TryInOrder(s, i, Alternatives)
  }

  /** The first of two results that is there. */
  function OrElse(a: Option<nat>, b: Option<nat>): Option<nat> {
    if a.Some? then a else b
  }

  /** The four alternatives, tried in the order written. */
  lemma MatchAtInOrder(s: string, i: nat)
    requires i <= |s|
    ensures MatchAt(s, i) ==
      OrElse(TryAlternative(s, i, Nested), OrElse(TryAlternative(s, i, Short),
      OrElse(TryAlternative(s, i, Query), TryAlternative(s, i, ShortHost))))
  {
    var last, two, three := [ShortHost], [Query, ShortHost], [Short, Query, ShortHost];
    assert last[1..] == [] && two[1..] == last && three[1..] == two && Alternatives[1..] == three;
    assert TryInOrder(s, i, last) == TryAlternative(s, i, ShortHost);
    assert TryInOrder(s, i, two) == OrElse(TryAlternative(s, i, Query), TryInOrder(s, i, last));
    assert TryInOrder(s, i, three) == OrElse(TryAlternative(s, i, Short), TryInOrder(s, i, two));
  }

  /** One step of the ordered search: the head alternative, or else the rest. */
  lemma TryHead(s: string, i: nat, alts: seq<Alternative>, head: Alternative, rest: seq<Alternative>)
    requires i <= |s| && alts == [head] + rest
    ensures TryInOrder(s, i, alts) == OrElse(TryAlternative(s, i, head), TryInOrder(s, i, rest))
  {
    assert alts[0] == head && alts[1..] == rest;
  }

  /** The first pattern tried at every start, `0` to `|s|` inclusive. */
  function Attempts(s: string): (ms: seq<Option<nat>>)
    ensures |ms| == |s| + 1 && forall k :: 0 <= k <= |s| ==> ms[k] == MatchAt(s, k)
  {
    seq(|s| + 1, k requires 0 <= k <= |s| => MatchAt(s, k))
  }

  /** The leftmost attempt from `i` on that succeeds, or `|ms|` when none does. */
  function FirstSome<T>(ms: seq<Option<T>>, i: nat): (k: nat)
    requires i <= |ms|
    ensures i <= k <= |ms|
    ensures k < |ms| ==> ms[k].Some?
    decreases |ms| - i
  {
    if i == |ms| || ms[i].Some? then i else FirstSome(ms, i + 1)
  }

  /** No attempt before the one `FirstSome` finds succeeds. */
  lemma {:induction false} FirstSomeIsLeftmost<T>(ms: seq<Option<T>>, i: nat, k: nat)
    requires i <= |ms| && i <= k < FirstSome(ms, i)
    ensures ms[k].None?
    decreases k - i
  {
    if k > i {
      FirstSomeIsLeftmost(ms, i + 1, k);
    }
  }

  /** A success at `k` with none before it is the one found. */
  lemma {:induction false} FirstSomeAt<T>(ms: seq<Option<T>>, i: nat, k: nat)
    requires i <= k < |ms| && ms[k].Some?
    requires forall k' :: i <= k' < k ==> ms[k'].None?
    ensures FirstSome(ms, i) == k
    decreases k - i
  {
    if k > i {
      FirstSomeAt(ms, i + 1, k);
    }
  }

  /** The second pattern: the whole link is eleven identifier characters. */
  predicate IsBareId(s: string) {
    |s| == IdLength && IdAt(s, 0)
  }

  /** `extractVideoId(url)`: the group of the first pattern's match, or
      `undefined` when only the second pattern matches, or `null`. A returned
      identifier is eleven characters with no quote, "&", "?", "/" or white
      space. */
  function ExtractVideoId(url: string): (r: Extracted)
    ensures r.Id? ==> |r.id| == IdLength && forall t :: 0 <= t < |r.id| ==> IdChar(r.id[t])
  {
    var attempts := Attempts(url);
    var k := FirstSome(attempts, 0);
    if k <= |url| then
      var g := attempts[k].value;
      var id := url[g..g + IdLength];
      assert forall t :: 0 <= t < |id| ==> id[t] == url[g + t];
      Id(id)
    else if IsBareId(url) then Undefined
    else Null
  }

  /** Where the first pattern matches somewhere, the result is the group of its
      leftmost match. */
  lemma ExtractFound(url: string, k: nat)
    requires k <= |url| && MatchAt(url, k).Some?
    requires forall k' :: 0 <= k' < k ==> MatchAt(url, k').None?
    ensures var g := MatchAt(url, k).value;
      ExtractVideoId(url) == Id(url[g..g + IdLength])
  {
    var attempts := Attempts(url);
    FirstSomeAt(attempts, 0, k);
  }

  /** Where it matches nowhere, the second pattern decides between `undefined`
      and `null`. */
  lemma ExtractNotFound(url: string)
    requires forall k :: 0 <= k <= |url| ==> MatchAt(url, k).None?
    ensures ExtractVideoId(url) == if IsBareId(url) then Undefined else Null
  {
  }

  /** An identifier comes only from a match of the first pattern, and a
      result other than an identifier means it matches nowhere. */
  lemma ExtractOnlyFromMatch(url: string)
    ensures ExtractVideoId(url).Id? <==> exists k :: 0 <= k <= |url| && MatchAt(url, k).Some?
  {
    var attempts := Attempts(url);
    var k := FirstSome(attempts, 0);
    if k > |url| {
      forall k' | 0 <= k' <= |url|
        ensures MatchAt(url, k').None?
      {
        FirstSomeIsLeftmost(attempts, 0, k');
      }
    }
  }

  // ---------------------------------------------------------------- link shapes

  /** No match can start at a character other than "y" or "Y". */
  lemma NoMatchWithoutY(s: string, k: nat)
    requires k < |s| && LowerAscii(s[k]) != 'y'
    ensures MatchAt(s, k).None?
  {
    MatchAtInOrder(s, k);
  }

  lemma NoMatchInPrefix(s: string, n: nat)
    requires n <= |s| && forall t :: 0 <= t < n ==> LowerAscii(s[t]) != 'y'
    ensures forall k :: 0 <= k < n ==> MatchAt(s, k).None?
  {
    forall k | 0 <= k < n
      ensures MatchAt(s, k).None?
    {
      NoMatchWithoutY(s, k);
    }
  }

  /** Case-insensitive text found in a slice is found in the whole. */
  lemma CharsAtSlice(s: string, k: nat, w: string, lit: string)
    requires k + |w| <= |s| && s[k..k + |w|] == w && |w| == |lit| && CharsAt(w, 0, lit)
    ensures CharsAt(s, k, lit)
  {
    forall t | k <= t < k + |lit|
      ensures LowerAscii(s[t]) == lit[t - k]
    {
      assert s[t] == w[t - k];
    }
  }

  lemma IdAtSlice(s: string, k: nat, w: string)
    requires k + |w| <= |s| && s[k..k + |w|] == w && IsBareId(w)
    ensures IdAt(s, k)
  {
    forall t | k <= t < k + IdLength
      ensures IdChar(s[t])
    {
      assert s[t] == w[t - k];
    }
  }

  /** No position from `lo` on holds `c`. */
  predicate Avoids(s: string, lo: nat, c: char) {
    forall t :: lo <= t < |s| ==> s[t] != c
  }

  lemma IdAvoidsSlash(id: string)
    requires IsBareId(id)
    ensures '/' !in id && '?' !in id && '&' !in id
    ensures forall t :: 0 <= t < |id| ==> !IsLineTerminator(id[t])
  {
    assert forall t :: 0 <= t < |id| ==> IdChar(id[t]);
  }

  /** The pattern matching first at `i`, with no "y" before it, decides. */
  lemma FoundAfterPrefix(s: string, i: nat, g: nat)
    requires i <= |s| && forall t :: 0 <= t < i ==> LowerAscii(s[t]) != 'y'
    requires MatchAt(s, i) == Some(g)
    ensures g + IdLength <= |s| && ExtractVideoId(s) == Id(s[g..g + IdLength])
  {
    NoMatchInPrefix(s, i);
    ExtractFound(s, i);
  }

  /** `youtu.be/` and eleven identifier characters give those characters,
      whatever follows, provided no "y" comes before the host. */
  lemma ShortLinkGivesId(prefix: string, host: string, id: string, rest: string)
    requires forall t :: 0 <= t < |prefix| ==> LowerAscii(prefix[t]) != 'y'
    requires |host| == 9 && CharsAt(host, 0, "youtu.be/")
    requires IsBareId(id)
    ensures ExtractVideoId(prefix + host + id + rest) == Id(id)
  {
    var s := prefix + host + id + rest;
    var i := |prefix|;
    assert forall t :: 0 <= t < i ==> s[t] == prefix[t];
    NoMatchInPrefix(s, i);
    assert s[i..i + 9] == host && s[i + 9..i + 20] == id;
    CharsAtSlice(s, i, host, "youtu.be/");
    IdAtSlice(s, i + 9, id);
    assert LowerAscii(s[i + 5]) == '.' by {
      assert s[i + 5] == host[5];
    }
    assert !CharsAt(s, i, "youtube.com/");
    MatchAtInOrder(s, i);
    ExtractFound(s, i);
  }

  /** After the host, no "/" follows the slash at `p`, so the nested-path
      alternative cannot take its second "/". */
  lemma NestedPathFails(s: string, j: nat, p: nat)
    requires j < p < |s| && s[p] == '/' && forall t :: j <= t < p ==> s[t] != '/'
    requires Avoids(s, p + 1, '/')
    ensures NestedPath(s, j).None?
  {
    assert IndexOfFrom(s, '/', j) == p;
  }

  /** The three short forms, tried in the order `v/`, `embed/`, `e/`. */
  lemma ShortPathOf(s: string, j: nat, form: string)
    requires form == "v/" || form == "embed/" || form == "e/"
    requires j + |form| <= |s| && s[j..j + |form|] == form && IdAt(s, j + |form|)
    ensures ShortPath(s, j) == Some(j + |form|)
  {
    if form == "v/" {
      assert Lower(form) == "v/";
    } else if form == "embed/" {
      assert s[j..j + 2] == form[..2] == "em" && Lower("em") != "v/";
      assert Lower(form) == "embed/";
    } else {
      assert Lower("e/") != "v/" && Lower("e/") == "e/";
      if j + 6 <= |s| {
        assert Lower(s[j..j + 6])[1] == LowerAscii(s[j + 1]) == '/';
      }
    }
  }

  /** The `youtube.com/` branch when the nested-path alternative fails and a
      short form follows. */
  lemma MatchAtShortPath(s: string, i: nat)
    requires i + 12 <= |s| && CharsAt(s, i, "youtube.com/")
    requires NestedPath(s, i + 12).None? && ShortPath(s, i + 12).Some?
    ensures MatchAt(s, i) == ShortPath(s, i + 12)
  {
    TryHead(s, i, Alternatives, Nested, [Short, Query, ShortHost]);
    TryHead(s, i, [Short, Query, ShortHost], Short, [Query, ShortHost]);
  }

  /** Each short form has its only "/" at the end. */
  lemma FormSlashes(form: string)
    requires form == "v/" || form == "embed/" || form == "e/"
    ensures |form| >= 2 && form[|form| - 1] == '/' && forall t :: 0 <= t < |form| - 1 ==> form[t] != '/'
  {
  }

  /** The whole first pattern at `i` on a short form: nothing after the form
      holds a "/", so the nested-path alternative fails first. */
  lemma ShortPathMatch(s: string, i: nat, form: string)
    requires form == "v/" || form == "embed/" || form == "e/"
    requires CharsAt(s, i, "youtube.com/")
    requires i + 12 + |form| <= |s| && s[i + 12..i + 12 + |form|] == form
    requires IdAt(s, i + 12 + |form|) && Avoids(s, i + 12 + |form|, '/')
    ensures MatchAt(s, i) == Some(i + 12 + |form|)
  {
    var j := i + 12;
    var g := j + |form|;
    ShortPathOf(s, j, form);
    FormSlashes(form);
    forall t | j <= t < g - 1
      ensures s[t] != '/'
    {
      assert s[t] == s[j..g][t - j];
    }
    assert s[g - 1] == s[j..g][|form| - 1];
    NestedPathFails(s, j, g - 1);
    MatchAtShortPath(s, i);
  }

  /** `youtube.com/` followed by `v/`, `embed/` or `e/` and an identifier
      gives that identifier when no "/" follows it and no "y" comes before
      the host; the host may be written in any case. */
  lemma ShortPathGivesId(prefix: string, host: string, form: string, id: string, rest: string)
    requires forall t :: 0 <= t < |prefix| ==> LowerAscii(prefix[t]) != 'y'
    requires |host| == 12 && CharsAt(host, 0, "youtube.com/")
    requires form == "v/" || form == "embed/" || form == "e/"
    requires IsBareId(id) && '/' !in rest
    ensures ExtractVideoId(prefix + host + form + id + rest) == Id(id)
  {
    var s := prefix + host + form + id + rest;
    var i := |prefix|;
    var g := i + 12 + |form|;
    assert forall t :: 0 <= t < i ==> s[t] == prefix[t];
    NoMatchInPrefix(s, i);
    assert s[i..i + 12] == host && s[i + 12..g] == form && s[g..g + 11] == id;
    CharsAtSlice(s, i, host, "youtube.com/");
    IdAtSlice(s, g, id);
    IdAvoidsSlash(id);
    assert Avoids(s, g, '/') by {
      assert forall t :: g <= t < |s| ==> s[t] == (id + rest)[t - g];
    }
    ShortPathMatch(s, i, form);
    ExtractFound(s, i);
  }

  /** Lower-casing maps only "A" to "Z" elsewhere, so a character that
      lower-cases to "/" is "/". */
  lemma LowerSlash(c: char)
    requires LowerAscii(c) == '/'
    ensures c == '/'
  {
  }

  /** The whole first pattern at `i` through `.*[?&]v=`: no "/" anywhere after
      the host, no line break before the query at `q` and no later `?v=` or
      `&v=` followed by an identifier, so the greedy `.*` stops at `q`. */
  lemma QueryMatch(s: string, i: nat, q: nat)
    requires CharsAt(s, i, "youtube.com/") && i + 12 <= q && IsQueryAt(s, q)
    requires Avoids(s, i + 12, '/')
    requires forall t :: i + 12 <= t < q ==> !IsLineTerminator(s[t])
    requires forall t :: q < t < |s| ==> !IsQueryAt(s, t)
    ensures MatchAt(s, i) == Some(q + 3)
  {
    var j := i + 12;
    assert IndexOfFrom(s, '/', j) == |s|;
    ShortPathNeedsSlash(s, j);
    QueryPathAt(s, j, q);
    TryHead(s, i, Alternatives, Nested, [Short, Query, ShortHost]);
    TryHead(s, i, [Short, Query, ShortHost], Short, [Query, ShortHost]);
    TryHead(s, i, [Query, ShortHost], Query, [ShortHost]);
  }

  /** A character of the input under a "/" of the text is a "/". */
  lemma SlashAt(s: string, k: nat, lit: string, t: nat)
    requires CharsAt(s, k, lit) && t < |lit| && lit[t] == '/'
    ensures s[k + t] == '/'
  {
    assert Lower(s[k..k + |lit|])[t] == LowerAscii(s[k + t]);
    LowerSlash(s[k + t]);
  }

  /** Each short form ends in "/". */
  lemma ShortPathNeedsSlash(s: string, j: nat)
    requires Avoids(s, j, '/')
    ensures ShortPath(s, j).None?
  {
    assert !CharsAt(s, j, "v/") by {
      if CharsAt(s, j, "v/") { SlashAt(s, j, "v/", 1); }
    }
    assert !CharsAt(s, j, "embed/") by {
      if CharsAt(s, j, "embed/") { SlashAt(s, j, "embed/", 5); }
    }
    assert !CharsAt(s, j, "e/") by {
      if CharsAt(s, j, "e/") { SlashAt(s, j, "e/", 1); }
    }
  }

  /** `.*[?&]v=` takes the last query that is followed by an identifier and
      reachable without a line break. */
  lemma QueryPathAt(s: string, j: nat, q: nat)
    requires j <= q && IsQueryAt(s, q)
    requires forall t :: j <= t < q ==> !IsLineTerminator(s[t])
    requires forall t :: q < t < |s| ==> !IsQueryAt(s, t)
    ensures QueryPath(s, j) == Some(q + 3)
  {
    var e := RunEnd(s, j);
    assert q < e;
  }

  /** What follows the host in a query link: no "/" at all, no line break
      before the query at `m`, no later query followed by an identifier. */
  predicate QueryTail(w: string, m: nat) {
    IsQueryAt(w, m) && Avoids(w, 0, '/') && (forall t :: 0 <= t < m ==> !IsLineTerminator(w[t])) &&
    forall t :: m < t < |w| ==> !IsQueryAt(w, t)
  }

  lemma QueryTailOf(path: string, sep: char, key: string, id: string, rest: string)
    requires '/' !in path && forall t :: 0 <= t < |path| ==> !IsLineTerminator(path[t])
    requires sep == '?' || sep == '&'
    requires |key| == 2 && CharsAt(key, 0, "v=")
    requires IsBareId(id) && '/' !in rest && forall t :: 0 <= t < |rest| ==> !IsQueryAt(rest, t)
    ensures QueryTail(path + [sep] + key + id + rest, |path|)
  {
    var head, tail := path + [sep] + key, id + rest;
    var m := |path|;
    assert path + [sep] + key + id + rest == head + tail;
    assert head[m + 1..m + 3] == key;
    CharsAtSlice(head, m + 1, key, "v=");
    assert LowerAscii(key[0]) == 'v' && LowerAscii(key[1]) == '=';
    assert forall t :: 0 <= t < m ==> head[t] == path[t];
    IdAvoidsSlash(id);
    assert Avoids(tail, 0, '/') by {
      assert forall t :: |id| <= t < |tail| ==> tail[t] == rest[t - |id|];
    }
    QueryAfterId(id, rest);
    assert tail[..IdLength] == id;
    QueryTailJoin(head, tail, m);
  }

  /** A character that can neither open a query nor end a path segment. */
  predicate TailChar(c: char) {
    c != '/' && c != '?' && c != '&'
  }

  /** A query tail from the text up to and including `v=` and the rest. */
  lemma QueryTailJoin(head: string, tail: string, m: nat)
    requires |head| == m + 3 && (head[m] == '?' || head[m] == '&') && CharsAt(head, m + 1, "v=")
    requires TailChar(head[m + 1]) && TailChar(head[m + 2])
    requires forall t :: 0 <= t < m ==> head[t] != '/'
    requires forall t :: 0 <= t < m ==> !IsLineTerminator(head[t])
    requires IdLength <= |tail| && IsBareId(tail[..IdLength]) && Avoids(tail, 0, '/')
    requires forall t :: 0 <= t < |tail| ==> !IsQueryAt(tail, t)
    ensures QueryTail(head + tail, m)
  {
    var w := head + tail;
    IdAtSlice(w, m + 3, tail[..IdLength]);
    assert w[m + 1..m + 3] == head[m + 1..m + 3];
    forall t | m + 3 <= t < |w|
      ensures w[t] != '/'
    {
      assert w[t] == tail[t - m - 3];
    }
    forall t | m < t < |w|
      ensures !IsQueryAt(w, t)
    {
      if t < m + 3 {
        assert w[t] == head[t];
      } else if IsQueryAt(w, t) {
        QueryAtUnshift(head, tail, t - m - 3);
      }
    }
  }

  /** After an identifier, which holds no "?" or "&", a query can only start
      in what follows it. */
  lemma QueryAfterId(id: string, rest: string)
    requires IsBareId(id) && forall t :: 0 <= t < |rest| ==> !IsQueryAt(rest, t)
    ensures forall t :: 0 <= t < |id + rest| ==> !IsQueryAt(id + rest, t)
  {
    IdAvoidsSlash(id);
    forall t | 0 <= t < |id + rest|
      ensures !IsQueryAt(id + rest, t)
    {
      if t < |id| {
        assert (id + rest)[t] == id[t];
      } else if IsQueryAt(id + rest, t) {
        QueryAtUnshift(id, rest, t - |id|);
      }
    }
  }

  /** A query tail after `youtube.com/` makes the first pattern match there. */
  lemma QueryShift(a: string, w: string, m: nat)
    requires |a| >= 12 && CharsAt(a, |a| - 12, "youtube.com/") && QueryTail(w, m)
    ensures MatchAt(a + w, |a| - 12) == Some(|a| + m + 3)
  {
    QueryTailShift(a, w, m);
    QueryMatch(a + w, |a| - 12, |a| + m);
  }

  /** A query tail after `youtube.com/` meets what `QueryMatch` asks for. */
  lemma QueryTailShift(a: string, w: string, m: nat)
    requires |a| >= 12 && CharsAt(a, |a| - 12, "youtube.com/") && QueryTail(w, m)
    ensures var s, n := a + w, |a|;
      CharsAt(s, n - 12, "youtube.com/") && IsQueryAt(s, n + m) && Avoids(s, n, '/') &&
      (forall t :: n <= t < n + m ==> !IsLineTerminator(s[t])) &&
      (forall t :: n + m < t < |s| ==> !IsQueryAt(s, t))
  {
    var s := a + w;
    var n := |a|;
    CharsAtPrefix(a, w, n - 12, "youtube.com/");
    QueryAtShift(a, w, m);
    assert forall t :: n <= t < |s| ==> s[t] == w[t - n];
    forall t | n + m < t < |s|
      ensures !IsQueryAt(s, t)
    {
      if IsQueryAt(s, t) {
        QueryAtUnshift(a, w, t - n);
      }
    }
  }

  /** Text in front keeps a case-blind occurrence where it was. */
  lemma CharsAtPrefix(a: string, w: string, k: nat, lit: string)
    requires CharsAt(a, k, lit)
    ensures CharsAt(a + w, k, lit)
  {
    assert (a + w)[k..k + |lit|] == a[k..k + |lit|];
  }

  /** Text in front moves a query back to where it was. */
  lemma QueryAtUnshift(a: string, w: string, q: nat)
    requires IsQueryAt(a + w, |a| + q)
    ensures IsQueryAt(w, q)
  {
    var s, n := a + w, |a|;
    assert s[n + q + 1..n + q + 3] == w[q + 1..q + 3];
    forall t | q + 3 <= t < q + 3 + IdLength
      ensures IdChar(w[t])
    {
      assert s[n + t] == w[t];
    }
  }

  /** Text in front moves a query and its identifier along. */
  lemma QueryAtShift(a: string, w: string, q: nat)
    requires IsQueryAt(w, q)
    ensures IsQueryAt(a + w, |a| + q)
  {
    var s, n := a + w, |a|;
    assert s[n + q + 1..n + q + 3] == w[q + 1..q + 3];
    forall t | n + q + 3 <= t < n + q + 3 + IdLength
      ensures IdChar(s[t])
    {
      assert s[t] == w[t - n];
    }
  }

  /** `youtube.com/`, a path without "/" or line breaks, then `?v=` or `&v=`
      and an identifier gives that identifier when no "/" and no further
      `?v=` or `&v=` with an identifier follows it and no "y" comes before
      the host. Other parameters such as `&t=42s` may follow. */
  lemma QueryGivesId(prefix: string, host: string, path: string, sep: char, key: string, id: string,
                     rest: string)
    requires forall t :: 0 <= t < |prefix| ==> LowerAscii(prefix[t]) != 'y'
    requires |host| == 12 && CharsAt(host, 0, "youtube.com/")
    requires '/' !in path && forall t :: 0 <= t < |path| ==> !IsLineTerminator(path[t])
    requires sep == '?' || sep == '&'
    requires |key| == 2 && CharsAt(key, 0, "v=")
    requires IsBareId(id) && '/' !in rest && forall t :: 0 <= t < |rest| ==> !IsQueryAt(rest, t)
    ensures ExtractVideoId(prefix + host + path + [sep] + key + id + rest) == Id(id)
  {
    var s := prefix + host + path + [sep] + key + id + rest;
    var g := |prefix| + 12 + |path| + 3;
    QueryLinkMatches(prefix, host, path, sep, key, id, rest);
    assert s[g..g + IdLength] == id;
    FoundAfterPrefix(s, |prefix|, g);
  }

  lemma QueryLinkMatches(prefix: string, host: string, path: string, sep: char, key: string, id: string,
                         rest: string)
    requires |host| == 12 && CharsAt(host, 0, "youtube.com/")
    requires '/' !in path && forall t :: 0 <= t < |path| ==> !IsLineTerminator(path[t])
    requires sep == '?' || sep == '&'
    requires |key| == 2 && CharsAt(key, 0, "v=")
    requires IsBareId(id) && '/' !in rest && forall t :: 0 <= t < |rest| ==> !IsQueryAt(rest, t)
    ensures MatchAt(prefix + host + path + [sep] + key + id + rest, |prefix|) == Some(|prefix| + 12 + |path| + 3)
  {
    var a, w := prefix + host, path + [sep] + key + id + rest;
    assert prefix + host + path + [sep] + key + id + rest == a + w;
    assert a[|prefix|..|prefix| + 12] == host;
    CharsAtSlice(a, |prefix|, host, "youtube.com/");
    QueryTailOf(path, sep, key, id, rest);
    QueryShift(a, w, |path|);
  }

  /** The whole first pattern at `i` through the nested-path alternative: the
      first "/" after the host is at `p`, the run from there has no line
      break up to the "/" at `q`, and no "/" follows `q`. */
  lemma NestedMatch(s: string, i: nat, p: nat, q: nat)
    requires CharsAt(s, i, "youtube.com/") && i + 12 < p && p + 1 < q < |s|
    requires s[p] == '/' && forall t :: i + 12 <= t < p ==> s[t] != '/'
    requires forall t :: p + 1 <= t < q ==> !IsLineTerminator(s[t])
    requires s[q] == '/' && IdAt(s, q + 1) && Avoids(s, q + 1, '/')
    ensures MatchAt(s, i) == Some(q + 1)
  {
    NestedPathAt(s, i + 12, p, q);
    TryHead(s, i, Alternatives, Nested, [Short, Query, ShortHost]);
  }

  /** `[^\/]+\/.+\/` then the group from `j`, with `.+` running from the first
      "/" after `j` to the last "/" before an identifier. */
  lemma NestedPathAt(s: string, j: nat, p: nat, q: nat)
    requires j < p && p + 1 < q < |s|
    requires s[p] == '/' && forall t :: j <= t < p ==> s[t] != '/'
    requires forall t :: p + 1 <= t < q ==> !IsLineTerminator(s[t])
    requires s[q] == '/' && IdAt(s, q + 1) && Avoids(s, q + 1, '/')
    ensures NestedPath(s, j) == Some(q + 1)
  {
    assert IndexOfFrom(s, '/', j) == p;
    var e := RunEnd(s, p + 1);
    assert forall t :: q + 1 <= t < q + 1 + IdLength ==> !IsLineTerminator(s[t]);
    assert q + 1 < e;
    assert SlashBack(s, p + 2, e) == Some(q + 1);
  }

  /** `[^\/]+\/.+\/` comes first and its `.+` is greedy: after
      `youtube.com/`, a segment, a "/", anything without a line break and
      another "/", the identifier after that last "/" is the one returned.
      With `embed` as the segment, a link `youtube.com/embed/<id>/<more>`
      yields the first eleven characters of `<more>` rather than `<id>`. */
  lemma NestedPathGivesId(prefix: string, host: string, segment: string, middle: string, id: string,
                          rest: string)
    requires forall t :: 0 <= t < |prefix| ==> LowerAscii(prefix[t]) != 'y'
    requires |host| == 12 && CharsAt(host, 0, "youtube.com/")
    requires |segment| > 0 && '/' !in segment
    requires |middle| > 0 && forall t :: 0 <= t < |middle| ==> !IsLineTerminator(middle[t])
    requires IsBareId(id) && '/' !in rest
    ensures ExtractVideoId(prefix + host + segment + "/" + middle + "/" + id + rest) == Id(id)
  {
    var s := prefix + host + segment + "/" + middle + "/" + id + rest;
    var q := |prefix| + 12 + |segment| + 1 + |middle|;
    NestedLinkMatches(prefix, host, segment, middle, id, rest);
    assert s[q + 1..q + 12] == id;
    assert forall t :: 0 <= t < |prefix| ==> s[t] == prefix[t];
    FoundAfterPrefix(s, |prefix|, q + 1);
  }

  lemma NestedLinkMatches(prefix: string, host: string, segment: string, middle: string, id: string,
                          rest: string)
    requires |host| == 12 && CharsAt(host, 0, "youtube.com/")
    requires |segment| > 0 && '/' !in segment
    requires |middle| > 0 && forall t :: 0 <= t < |middle| ==> !IsLineTerminator(middle[t])
    requires IsBareId(id) && '/' !in rest
    ensures MatchAt(prefix + host + segment + "/" + middle + "/" + id + rest, |prefix|) ==
      Some(|prefix| + 12 + |segment| + 1 + |middle| + 1)
  {
    var s := prefix + host + segment + "/" + middle + "/" + id + rest;
    var p := |prefix| + 12 + |segment|;
    var q := p + 1 + |middle|;
    NestedLayout(prefix, host, segment, middle, id, rest);
    NestedMatch(s, |prefix|, p, q);
    assert MatchAt(s, |prefix|) == Some(q + 1);
  }

  /** Where the host, the two "/" and the identifier of a nested link are. */
  lemma NestedLayout(prefix: string, host: string, segment: string, middle: string, id: string,
                     rest: string)
    requires |host| == 12 && CharsAt(host, 0, "youtube.com/")
    requires |segment| > 0 && '/' !in segment
    requires |middle| > 0 && forall t :: 0 <= t < |middle| ==> !IsLineTerminator(middle[t])
    requires IsBareId(id) && '/' !in rest
    ensures var s := prefix + host + segment + "/" + middle + "/" + id + rest;
      var i := |prefix|;
      var p := i + 12 + |segment|;
      var q := p + 1 + |middle|;
      CharsAt(s, i, "youtube.com/") && s[p] == '/' && s[q] == '/' && q < |s| &&
      (forall t :: i + 12 <= t < p ==> s[t] != '/') &&
      (forall t :: p + 1 <= t < q ==> !IsLineTerminator(s[t])) &&
      IdAt(s, q + 1) && Avoids(s, q + 1, '/')
  {
    var s := prefix + host + segment + "/" + middle + "/" + id + rest;
    var a, c, d := prefix + host, "/" + middle + "/", id + rest;
    var i := |prefix|;
    var j := i + 12;
    var p := j + |segment|;
    var q := p + 1 + |middle|;
    assert CharsAt(s, i, "youtube.com/") by {
      assert s == a + (segment + c + d);
      assert a[i..j] == host;
      CharsAtSlice(a, i, host, "youtube.com/");
      CharsAtPrefix(a, segment + c + d, i, "youtube.com/");
    }
    assert s == a + segment + c + d;
    Pieces(a, segment, c, d);
    assert s[p] == c[0] && s[q] == c[|c| - 1];
    assert forall t :: 1 <= t < |c| - 1 ==> c[t] == middle[t - 1];
    IdAvoidsSlash(id);
    assert forall t :: |id| <= t < |d| ==> d[t] == rest[t - |id|];
    assert s[q + 1..q + 12] == id;
    IdAtSlice(s, q + 1, id);
  }

  /** Where the characters of four joined pieces come from. */
  lemma Pieces(a: string, b: string, c: string, d: string)
    ensures var s := a + b + c + d;
      (forall t :: 0 <= t < |a| ==> s[t] == a[t]) &&
      (forall t :: |a| <= t < |a| + |b| ==> s[t] == b[t - |a|]) &&
      (forall t :: |a| + |b| <= t < |a| + |b| + |c| ==> s[t] == c[t - |a| - |b|]) &&
      (forall t :: |a| + |b| + |c| <= t < |s| ==> s[t] == d[t - |a| - |b| - |c|])
  {
  }

  /** A bare identifier is too short for the first pattern, which needs at
      least twenty characters, so only the second matches: `undefined`. */
  lemma BareIdIsUndefined(url: string)
    requires IsBareId(url)
    ensures ExtractVideoId(url) == Undefined
  {
    forall k | 0 <= k <= |url|
      ensures MatchAt(url, k).None?
    {
    }
    ExtractNotFound(url);
  }

  /** A watch link with a start time after the identifier: the `&` of `&t=`
      is not followed by `v=`, so the query at `?v=` is the one taken. */
  lemma WatchLinkWithStartTime(url: string)
    requires url == "https://www.youtube.com/watch?v=dQw4w9WgXcQ&t=42s"
    ensures ExtractVideoId(url) == Id("dQw4w9WgXcQ")
  {
    WatchLinkPieces(url);
    WatchLinkPath("watch");
    WatchLinkPrefix("https://www.");
    WatchLinkHost("youtube.com/");
    WatchLinkKey("v=");
    WatchLinkId("dQw4w9WgXcQ");
    StartTimeHasNoQuery("&t=42s");
    QueryGivesId("https://www.", "youtube.com/", "watch", '?', "v=", "dQw4w9WgXcQ", "&t=42s");
  }

  lemma WatchLinkPieces(url: string)
    requires url == "https://www.youtube.com/watch?v=dQw4w9WgXcQ&t=42s"
    ensures url == "https://www." + "youtube.com/" + "watch" + ['?'] + "v=" + "dQw4w9WgXcQ" + "&t=42s"
  {
    assert "https://www." + "youtube.com/" + "watch" == "https://www.youtube.com/watch";
    assert "https://www.youtube.com/watch" + ['?'] + "v=" == "https://www.youtube.com/watch?v=";
    assert "https://www.youtube.com/watch?v=" + "dQw4w9WgXcQ" == "https://www.youtube.com/watch?v=dQw4w9WgXcQ";
  }

  lemma WatchLinkPath(path: string)
    requires path == "watch"
    ensures '/' !in path && forall t :: 0 <= t < |path| ==> !IsLineTerminator(path[t])
  {
    assert forall t :: 0 <= t < |path| ==> path[t] in path;
  }

  /** Text without capital letters is its own lower-case form. */
  lemma LowerOfLowerCase(s: string)
    requires forall t :: 0 <= t < |s| ==> !('A' <= s[t] <= 'Z')
    ensures Lower(s) == s
  {
  }

  lemma WatchLinkPrefix(prefix: string)
    requires prefix == "https://www."
    ensures forall t :: 0 <= t < |prefix| ==> LowerAscii(prefix[t]) != 'y'
  {
    assert 'y' !in prefix && 'Y' !in prefix;
  }

  lemma WatchLinkHost(host: string)
    requires host == "youtube.com/"
    ensures |host| == 12 && CharsAt(host, 0, "youtube.com/")
  {
    assert forall t :: 0 <= t < |host| ==> host[t] in host;
    LowerOfLowerCase(host);
    assert host[0..12] == host;
  }

  lemma WatchLinkKey(key: string)
    requires key == "v="
    ensures |key| == 2 && CharsAt(key, 0, "v=")
  {
    LowerOfLowerCase(key);
    assert key[0..2] == key;
  }

  lemma WatchLinkId(id: string)
    requires id == "dQw4w9WgXcQ"
    ensures IsBareId(id) && '/' !in id
  {
    forall t | 0 <= t < IdLength
      ensures IdChar(id[t])
    {
      assert id[t] in id;
    }
  }

  /** `&t=42s` holds an `&`, but not one followed by `v=`. */
  lemma StartTimeHasNoQuery(rest: string)
    requires rest == "&t=42s"
    ensures '/' !in rest && forall t :: 0 <= t < |rest| ==> !IsQueryAt(rest, t)
  {
    forall t | 0 <= t < |rest|
      ensures !IsQueryAt(rest, t)
    {
      if t == 0 {
        assert Lower(rest[1..3])[0] == LowerAscii(rest[1]) == 't';
      } else {
        assert rest[t] in rest[1..];
      }
    }
  }

  /** The caller's `if (!videoId)`: only a non-empty string goes on. */
  predicate CallerAccepts(r: Extracted) {
    r.Id? && r.id != ""
  }

  /** The caller goes on exactly when an identifier was returned, so a bare
      identifier is turned away as an invalid link. */
  lemma CallerAcceptsOnlyIds(url: string)
    ensures CallerAccepts(ExtractVideoId(url)) <==> ExtractVideoId(url).Id?
    ensures IsBareId(url) ==> !CallerAccepts(ExtractVideoId(url))
  {
    if IsBareId(url) {
      BareIdIsUndefined(url);
    }
  }
}
