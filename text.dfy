/** The text normalizers of the converter (clean_characters,
    remove_linebreaks, remove_many_spaces) and the pieces of Python's `str`
    and `re` behaviour that the converter relies on: `strip`, `in`,
    `replace`, `split('\n')`, `join` and the match of `^[A-Za-z]+`. */
module Text {
  import opened Wrappers

  /** Python's whitespace: the characters `str.isspace()` accepts, which are
      also the characters `\s` matches in a `re` pattern over `str`.
      U+00A0 (no-break space) is one of them. */
  predicate IsWs(c: char) {
    ('\t' <= c <= '\r') || ('\U{1C}' <= c <= '\U{1F}') || c == ' '
    || c == '\U{85}' || c == '\U{A0}' || c == '\U{1680}'
    || ('\U{2000}' <= c <= '\U{200A}') || c == '\U{2028}' || c == '\U{2029}'
    || c == '\U{202F}' || c == '\U{205F}' || c == '\U{3000}'
  }

  ghost predicate AllWs(s: string) {
    forall i :: 0 <= i < |s| ==> IsWs(s[i])
  }

  /** The no-break space, U+00A0. */
  const Nbsp: char := '\U{A0}'

  // ---------------------------------------------------------------------
  // clean_characters

  /** Every no-break space becomes an ordinary space; nothing else changes. */
  function CleanCharacters(s: string): (r: string)
    ensures |r| == |s| && Nbsp !in r
    ensures forall i :: 0 <= i < |s| && s[i] != Nbsp ==> r[i] == s[i]
    ensures forall i :: 0 <= i < |s| && s[i] == Nbsp ==> r[i] == ' '
  {
    if s == [] then []
    else [if s[0] == Nbsp then ' ' else s[0]] + CleanCharacters(s[1..])
  }

  // ---------------------------------------------------------------------
  // remove_linebreaks

  /** `s.replace(c, '')` for one character `c`: every `c` is deleted. */
  function Without(s: string, c: char): (r: string)
    ensures c !in r && |r| <= |s|
  {
    if s == [] then []
    else
      assert s == [s[0]] + s[1..];
      (if s[0] == c then [] else [s[0]]) + Without(s[1..], c)
  }

  /** Deleting keeps the number of occurrences of every other character. */
  lemma {:induction false} WithoutCounts(s: string, c: char)
    ensures forall x :: x != c ==> multiset(Without(s, c))[x] == multiset(s)[x]
  {
    if s != [] {
      WithoutCounts(s[1..], c);
      assert s == [s[0]] + s[1..];
      assert multiset(s) == multiset([s[0]]) + multiset(s[1..]);
    }
  }

  /** Deleting works piece by piece, so the characters that stay keep their order. */
  lemma {:induction false} WithoutAppend(a: string, b: string, c: char)
    ensures Without(a + b, c) == Without(a, c) + Without(b, c)
  {
    if a == [] {
      assert a + b == b;
    } else {
      var p := if a[0] == c then [] else [a[0]];
      assert (a + b)[0] == a[0];
      assert (a + b)[1..] == a[1..] + b;
      WithoutAppend(a[1..], b, c);
      ConcatAssoc(p, Without(a[1..], c), Without(b, c));
    }
  }

  /** Deleting a character adds no other. */
  lemma {:induction false} WithoutKeepsAbsent(s: string, c: char, d: char)
    requires d !in s
    ensures d !in Without(s, c)
  {
    if s != [] {
      assert d !in s[1..];
      WithoutKeepsAbsent(s[1..], c, d);
    }
  }

  lemma {:induction false} WithoutAbsent(s: string, c: char)
    requires c !in s
    ensures Without(s, c) == s
  {
    if s != [] {
      assert c !in s[1..];
      WithoutAbsent(s[1..], c);
      assert s == [s[0]] + s[1..];
    }
  }

  /** remove_linebreaks: `s.replace('\n', '').replace('\r', '')`. */
  function RemoveLinebreaks(s: string): (r: string)
    ensures '\n' !in r && '\r' !in r && |r| <= |s|
  {
    var t := Without(s, '\n');
    WithoutKeepsAbsent(t, '\r', '\n');
    Without(t, '\r')
  }

  /** Every character other than a line break occurs as often as before. */
  lemma RemoveLinebreaksCounts(s: string)
    ensures forall x :: x != '\n' && x != '\r' ==> multiset(RemoveLinebreaks(s))[x] == multiset(s)[x]
  {
    WithoutCounts(s, '\n');
    WithoutCounts(Without(s, '\n'), '\r');
  }

  /** Line breaks are deleted in place: the result on a concatenation is the
      concatenation of the results, so the other characters keep their order. */
  lemma RemoveLinebreaksAppend(a: string, b: string)
    ensures RemoveLinebreaks(a + b) == RemoveLinebreaks(a) + RemoveLinebreaks(b)
  {
    WithoutAppend(a, b, '\n');
    WithoutAppend(Without(a, '\n'), Without(b, '\n'), '\r');
  }

  /** A string without line breaks is left as it is. */
  lemma RemoveLinebreaksIdentity(s: string)
    requires '\n' !in s && '\r' !in s
    ensures RemoveLinebreaks(s) == s
  {
    WithoutAbsent(s, '\n');
    WithoutAbsent(s, '\r');
  }

  // ---------------------------------------------------------------------
  // remove_many_spaces: re.sub(r'\s{10,}', ' ', s)

  /** Length of the run of whitespace that starts `s`. */
  function WsRun(s: string): (n: nat)
    ensures n <= |s|
    ensures forall i :: 0 <= i < n ==> IsWs(s[i])
    ensures n == |s| || !IsWs(s[n])
  {
    if s != [] && IsWs(s[0]) then 1 + WsRun(s[1..]) else 0
  }

  /** No run of ten or more whitespace characters anywhere in `s`. */
  ghost predicate NoLongRun(s: string) {
    forall i :: 0 <= i < |s| ==> ShortRunAt(s, i)
  }

  /** The whitespace run that starts at position `i` of `s` is shorter than ten. */
  ghost predicate ShortRunAt(s: string, i: nat)
    requires i <= |s|
  {
    WsRun(s[i..]) < 10
  }

  /** Each maximal run of ten or more whitespace characters becomes one
      space; shorter runs and all other characters are copied. The regex
      matches greedily from the first character of a run, and a run that is
      too short from its start is too short from every later position. */
  function RemoveManySpaces(s: string): (r: string)
    ensures |r| <= |s|
    decreases |s|
  {
    if s == [] then []
    else if !IsWs(s[0]) then [s[0]] + RemoveManySpaces(s[1..])
    else
      var n := WsRun(s);
      (if n >= 10 then " " else s[..n]) + RemoveManySpaces(s[n..])
  }

  /** The result is empty exactly when the input is, and starts with
      whitespace exactly when the input does. */
  lemma ManySpacesEnds(s: string)
    ensures RemoveManySpaces(s) == [] <==> s == []
    ensures s != [] ==> (IsWs(RemoveManySpaces(s)[0]) <==> IsWs(s[0]))
  {
  }

  lemma {:induction false} WsRunAppend(w: string, t: string)
    requires AllWs(w)
    ensures WsRun(w + t) == |w| + WsRun(t)
  {
    if w == [] {
      assert w + t == t;
    } else {
      assert (w + t)[1..] == w[1..] + t;
      WsRunAppend(w[1..], t);
    }
  }

  /** One whole run followed by text: the run is collapsed exactly when it
      has ten or more characters (nine stay as they are, ten become one
      space). */
  lemma ManySpacesRun(w: string, t: string)
    requires w != [] && AllWs(w)
    requires t == [] || !IsWs(t[0])
    ensures RemoveManySpaces(w + t) == (if |w| >= 10 then " " else w) + RemoveManySpaces(t)
  {
    WsRunAppend(w, t);
    assert (w + t)[..|w|] == w;
    assert (w + t)[|w|..] == t;
  }

  /** A leading run that stops inside `a` is not lengthened by what follows `a`. */
  lemma {:induction false} WsRunStopsInside(a: string, b: string)
    requires WsRun(a) < |a|
    ensures WsRun(a + b) == WsRun(a)
  {
    assert (a + b)[0] == a[0];
    if IsWs(a[0]) {
      assert (a + b)[1..] == a[1..] + b;
      WsRunStopsInside(a[1..], b);
    }
  }

  /** Text that ends in non-whitespace (or is empty) is a boundary no run
      crosses: collapsing its concatenation with anything collapses the two
      parts separately. */
  lemma {:induction false} ManySpacesAfterText(a: string, b: string)
    requires a == [] || !IsWs(a[|a| - 1])
    ensures RemoveManySpaces(a + b) == RemoveManySpaces(a) + RemoveManySpaces(b)
    decreases |a|
  {
    if a == [] {
      assert a + b == b;
    } else {
      var n, p := FirstPiece(a, b);
      ManySpacesAfterText(a[n..], b);
      ConcatAssoc(p, RemoveManySpaces(a[n..]), RemoveManySpaces(b));
    }
  }

  /** The first step of the collapse is the same on `a + b` as on `a`: one
      non-whitespace character, or the leading run, which ends inside `a`. */
  lemma FirstPiece(a: string, b: string) returns (n: nat, p: string)
    requires a != [] && !IsWs(a[|a| - 1])
    ensures 0 < n <= |a| && (a[n..] == [] || !IsWs(a[n..][|a[n..]| - 1]))
    ensures RemoveManySpaces(a) == p + RemoveManySpaces(a[n..])
    ensures RemoveManySpaces(a + b) == p + RemoveManySpaces(a[n..] + b)
  {
    var s := a + b;
    assert s[0] == a[0];
    if IsWs(a[0]) {
      n := WsRun(a);
      p := if n >= 10 then " " else a[..n];
      WsRunStopsInside(a, b);
      assert s[..n] == a[..n];
    } else {
      n, p := 1, [a[0]];
    }
    assert s[n..] == a[n..] + b;
  }

  /** Any whole run, wherever it stands: after empty text or text ending in
      non-whitespace, and before empty text or text starting with
      non-whitespace, the run becomes one space exactly when it has ten or
      more characters and is copied otherwise; the text around it is
      collapsed on its own. */
  lemma ManySpacesRunAnywhere(p: string, w: string, t: string)
    requires p == [] || !IsWs(p[|p| - 1])
    requires w != [] && AllWs(w)
    requires t == [] || !IsWs(t[0])
    ensures RemoveManySpaces(p + w + t)
      == RemoveManySpaces(p) + (if |w| >= 10 then " " else w) + RemoveManySpaces(t)
  {
    ConcatAssoc(p, w, t);
    ManySpacesAfterText(p, w + t);
    ManySpacesRun(w, t);
    ConcatAssoc(RemoveManySpaces(p), if |w| >= 10 then " " else w, RemoveManySpaces(t));
  }

  lemma NoLongRunAfterText(c: char, t: string)
    requires !IsWs(c) && NoLongRun(t)
    ensures NoLongRun([c] + t)
  {
    forall i | 0 <= i < |[c] + t|
      ensures ShortRunAt([c] + t, i)
    {
      if i > 0 {
        assert ([c] + t)[i..] == t[i - 1..];
        assert ShortRunAt(t, i - 1);
      }
    }
  }

  lemma NoLongRunAfterShortRun(p: string, t: string)
    requires AllWs(p) && |p| < 10
    requires t == [] || !IsWs(t[0])
    requires NoLongRun(t)
    ensures NoLongRun(p + t)
  {
    forall i | 0 <= i < |p + t|
      ensures ShortRunAt(p + t, i)
    {
      if i < |p| {
        assert (p + t)[i..] == p[i..] + t;
        WsRunAppend(p[i..], t);
      } else {
        assert (p + t)[i..] == t[i - |p|..];
        assert ShortRunAt(t, i - |p|);
      }
    }
  }

  lemma NoLongRunSuffix(s: string, k: nat)
    requires NoLongRun(s) && k <= |s|
    ensures NoLongRun(s[k..])
  {
    forall i | 0 <= i < |s[k..]|
      ensures ShortRunAt(s[k..], i)
    {
      assert s[k..][i..] == s[k + i..];
      assert ShortRunAt(s, k + i);
    }
  }

  /** The result holds no run of ten or more whitespace characters. */
  lemma {:induction false} ManySpacesLeavesNoLongRun(s: string)
    ensures NoLongRun(RemoveManySpaces(s))
    decreases |s|
  {
    if s == [] {
    } else if !IsWs(s[0]) {
      ManySpacesLeavesNoLongRun(s[1..]);
      NoLongRunAfterText(s[0], RemoveManySpaces(s[1..]));
    } else {
      var n := WsRun(s);
      ManySpacesLeavesNoLongRun(s[n..]);
      var p := if n >= 10 then " " else s[..n];
      ManySpacesEnds(s[n..]);
      NoLongRunAfterShortRun(p, RemoveManySpaces(s[n..]));
    }
  }

  /** A string whose whitespace runs are all shorter than ten is unchanged. */
  lemma {:induction false} ManySpacesKeepsShortRuns(s: string)
    requires NoLongRun(s)
    ensures RemoveManySpaces(s) == s
    decreases |s|
  {
    if s == [] {
    } else if !IsWs(s[0]) {
      NoLongRunSuffix(s, 1);
      ManySpacesKeepsShortRuns(s[1..]);
      assert s == [s[0]] + s[1..];
    } else {
      var n := WsRun(s);
      FirstRunShort(s);
      NoLongRunSuffix(s, n);
      ManySpacesKeepsShortRuns(s[n..]);
      RunThenKept(s, n);
    }
  }

  lemma FirstRunShort(s: string)
    requires s != [] && NoLongRun(s)
    ensures WsRun(s) < 10
  {
    assert ShortRunAt(s, 0);
    assert s[0..] == s;
  }

  lemma RunThenKept(s: string, n: nat)
    requires s != [] && IsWs(s[0]) && n == WsRun(s) && n < 10
    requires RemoveManySpaces(s[n..]) == s[n..]
    ensures RemoveManySpaces(s) == s
  {
    var w, t := s[..n], s[n..];
    assert w + t == s;
    assert AllWs(w) by {
      forall i | 0 <= i < |w| ensures IsWs(w[i]) {
        assert w[i] == s[i];
      }
    }
    ManySpacesRun(w, t);
  }

  /** Collapsing twice is collapsing once. */
  lemma ManySpacesIdempotent(s: string)
    ensures RemoveManySpaces(RemoveManySpaces(s)) == RemoveManySpaces(s)
  {
    ManySpacesLeavesNoLongRun(s);
    ManySpacesKeepsShortRuns(RemoveManySpaces(s));
  }

  /** The characters of `s` that are not whitespace, in order. */
  function NonWs(s: string): string {
    if s == [] then [] else (if IsWs(s[0]) then [] else [s[0]]) + NonWs(s[1..])
  }

  lemma {:induction false} NonWsAppend(a: string, b: string)
    ensures NonWs(a + b) == NonWs(a) + NonWs(b)
  {
    if a == [] {
      assert a + b == b;
    } else {
      assert (a + b)[0] == a[0];
      assert (a + b)[1..] == a[1..] + b;
      NonWsAppend(a[1..], b);
    }
  }

  lemma {:induction false} NonWsOfWs(w: string)
    requires AllWs(w)
    ensures NonWs(w) == []
  {
    if w != [] {
      NonWsOfWs(w[1..]);
    }
  }

  /** Only whitespace is touched: the text between the runs is kept, in order. */
  lemma {:induction false} ManySpacesKeepsText(s: string)
    ensures NonWs(RemoveManySpaces(s)) == NonWs(s)
    decreases |s|
  {
    if s == [] {
    } else if !IsWs(s[0]) {
      ManySpacesKeepsText(s[1..]);
      NonWsAppend([s[0]], RemoveManySpaces(s[1..]));
    } else {
      var n := WsRun(s);
      var p := if n >= 10 then " " else s[..n];
      ManySpacesKeepsText(s[n..]);
      NonWsAppend(p, RemoveManySpaces(s[n..]));
      NonWsOfWs(p);
      assert s == s[..n] + s[n..];
      NonWsAppend(s[..n], s[n..]);
      NonWsOfWs(s[..n]);
    }
  }

  /** A string without whitespace is unchanged. */
  lemma ManySpacesNoWs(s: string)
    requires forall i :: 0 <= i < |s| ==> !IsWs(s[i])
    ensures RemoveManySpaces(s) == s
  {
    forall i | 0 <= i < |s|
      ensures ShortRunAt(s, i)
    {
      assert s[i..][0] == s[i];
    }
    ManySpacesKeepsShortRuns(s);
  }

  // ---------------------------------------------------------------------
  // str.strip()

  /** Length of the run of whitespace that ends `s`. */
  function TrailingWs(s: string): (n: nat)
    ensures n <= |s|
    ensures forall i :: |s| - n <= i < |s| ==> IsWs(s[i])
    ensures n == |s| || !IsWs(s[|s| - n - 1])
  {
    if s != [] && IsWs(s[|s| - 1]) then 1 + TrailingWs(s[..|s| - 1]) else 0
  }

  /** The trailing run of `s[k..]`, seen from `s`: everything after the
      middle part is whitespace, and the middle part ends in
      non-whitespace when it is not empty. */
  lemma TrailingOfRest(s: string, k: nat, n: nat)
    requires k <= |s| && n == TrailingWs(s[k..])
    ensures k + n <= |s|
    ensures AllWs(s[|s| - n..])
    ensures k + n < |s| ==> !IsWs(s[|s| - n - 1])
  {
    var l := s[k..];
    assert s[|s| - n..] == l[|l| - n..];
  }

  /** `s` less its trailing whitespace. */
  function TrimEnd(s: string): string {
    s[..|s| - TrailingWs(s)]
  }

  /** `s.strip()`: `s` less its leading and its trailing whitespace. */
  function Strip(s: string): string {
    TrimEnd(s[WsRun(s)..])
  }

  /** The stripped text is empty exactly when `s` is all whitespace. */
  lemma StripEmpty(s: string)
    ensures Strip(s) == [] <==> AllWs(s)
  {
    var k := WsRun(s);
    if k < |s| {
      var l := s[k..];
      assert !IsWs(l[0]);
    }
  }

  /** The stripped text is the slice of `s` that starts after the leading
      run and is followed only by whitespace. */
  lemma StripSlice(s: string)
    ensures WsRun(s) + |Strip(s)| <= |s|
    ensures Strip(s) == s[WsRun(s)..WsRun(s) + |Strip(s)|]
    ensures AllWs(s[WsRun(s) + |Strip(s)|..])
  {
    var k := WsRun(s);
    var n := TrailingWs(s[k..]);
    TrailingOfRest(s, k, n);
    assert Strip(s) == TrimEnd(s[k..]);
    TakeOfDrop(s, k, |s| - k - n);
    MiddleSlice(s, k, n, Strip(s));
  }

  lemma TakeOfDrop(s: string, k: nat, m: nat)
    requires k + m <= |s|
    ensures s[k..][..m] == s[k..k + m]
  {
  }

  lemma MiddleSlice(s: string, k: nat, n: nat, r: string)
    requires k + n <= |s| && r == s[k..|s| - n] && AllWs(s[|s| - n..])
    ensures k + |r| <= |s| && r == s[k..k + |r|] && AllWs(s[k + |r|..])
  {
    assert s[k + |r|..] == s[|s| - n..];
  }

  /** Neither end of the stripped text is whitespace. */
  lemma StripEnds(s: string)
    requires !AllWs(s)
    ensures Strip(s) != [] && !IsWs(Strip(s)[0]) && !IsWs(Strip(s)[|Strip(s)| - 1])
  {
    var k := WsRun(s);
    var l := s[k..];
    var n := TrailingWs(l);
    assert !IsWs(l[0]);
    TrailingOfRest(s, k, n);
    assert Strip(s)[0] == s[k];
    assert Strip(s)[|Strip(s)| - 1] == s[|s| - n - 1];
  }

  /** Stripping whitespace-free ends changes nothing. */
  lemma StripIdentity(s: string)
    requires s == [] || (!IsWs(s[0]) && !IsWs(s[|s| - 1]))
    ensures Strip(s) == s
  {
    assert s[0..] == s;
  }

  /** Leading whitespace makes no difference to the stripped text. */
  lemma StripAfterWs(w: string, t: string)
    requires AllWs(w)
    ensures Strip(w + t) == Strip(t)
  {
    WsRunAppend(w, t);
    assert (w + t)[|w| + WsRun(t)..] == t[WsRun(t)..];
  }

  // ---------------------------------------------------------------------
  // re.match(r'^[A-Za-z]+', s)

  predicate IsAsciiLetter(c: char) {
    'A' <= c <= 'Z' || 'a' <= c <= 'z'
  }

  function LetterPrefix(s: string): (r: string)
    ensures |r| <= |s| && r == s[..|r|]
    ensures forall i :: 0 <= i < |r| ==> IsAsciiLetter(r[i])
    ensures |r| == |s| || !IsAsciiLetter(s[|r|])
  {
    if s != [] && IsAsciiLetter(s[0]) then [s[0]] + LetterPrefix(s[1..]) else []
  }

  /** The match of `^[A-Za-z]+` against `s`: the longest non-empty run of
      ASCII letters that starts `s`, or nothing when `s` does not start with
      an ASCII letter. */
  function MatchLetters(s: string): (m: Option<string>)
    ensures m.Some? <==> s != [] && IsAsciiLetter(s[0])
    ensures m.Some? ==> m.value != [] && |m.value| <= |s| && m.value == s[..|m.value|]
    ensures m.Some? ==> forall i :: 0 <= i < |m.value| ==> IsAsciiLetter(m.value[i])
    ensures m.Some? && |m.value| < |s| ==> !IsAsciiLetter(s[|m.value|])
  {
    var p := LetterPrefix(s);
    if p == [] then None else Some(p)
  }

  // ---------------------------------------------------------------------
  // `pat in s` and `s.replace(pat, rep)`

  /** `pat in s`. */
  predicate Contains(s: string, pat: string)
    decreases |s|
  {
    |pat| <= |s| && (s[..|pat|] == pat || Contains(s[1..], pat))
  }

  /** A text lacking one of the pattern's characters does not contain it. */
  lemma {:induction false} MissingCharNotContained(s: string, pat: string, c: char)
    requires c in pat && c !in s
    ensures !Contains(s, pat)
    decreases |s|
  {
    if |pat| <= |s| {
      assert c !in s[..|pat|];
      MissingCharNotContained(s[1..], pat, c);
    }
  }

  /** `s.replace(pat, rep)`: occurrences are replaced left to right without
      overlapping; a string without `pat` is returned unchanged. */
  function Replace(s: string, pat: string, rep: string): (r: string)
    requires pat != []
    ensures !Contains(s, pat) ==> r == s
    decreases |s|
  {
    if |s| < |pat| then s
    else if s[..|pat|] == pat then rep + Replace(s[|pat|..], pat, rep)
    else
      assert s == [s[0]] + s[1..];
      [s[0]] + Replace(s[1..], pat, rep)
  }

  // ---------------------------------------------------------------------
  // Reading generated text back: `s.split('\n')` and `sep.join(xs)`

  function IndexOf(s: string, c: char): (i: nat)
    requires c in s
    ensures i < |s| && s[i] == c && c !in s[..i]
  {
    if s[0] == c then 0 else 1 + IndexOf(s[1..], c)
  }

  /** `s.split('\n')`. */
  function Lines(s: string): (ls: seq<string>)
    ensures |ls| >= 1
    decreases |s|
  {
    if '\n' !in s then [s]
    else
      var i := IndexOf(s, '\n');
      [s[..i]] + Lines(s[i + 1..])
  }

  /** Each line followed by a line break. */
  function Unlines(ls: seq<string>): string {
    if ls == [] then [] else ls[0] + "\n" + Unlines(ls[1..])
  }

  lemma UnlinesCons(l: string, ls: seq<string>)
    ensures Unlines([l] + ls) == l + "\n" + Unlines(ls)
  {
    assert ([l] + ls)[1..] == ls;
  }

  lemma {:induction false} UnlinesAppend(a: seq<string>, b: seq<string>)
    ensures Unlines(a + b) == Unlines(a) + Unlines(b)
  {
    if a == [] {
      assert a + b == b;
    } else {
      assert (a + b)[0] == a[0];
      assert (a + b)[1..] == a[1..] + b;
      UnlinesAppend(a[1..], b);
    }
  }

  /** The first line break of `a + "\n" + rest`, for `a` without one. */
  lemma {:induction false} FirstBreak(a: string, rest: string)
    requires '\n' !in a
    ensures IndexOf(a + "\n" + rest, '\n') == |a|
  {
    var s := a + "\n" + rest;
    if a == [] {
      assert s[0] == '\n';
    } else {
      assert s[0] == a[0];
      assert s[1..] == a[1..] + "\n" + rest;
      FirstBreak(a[1..], rest);
    }
  }

  /** Splitting at the first line break. */
  lemma LinesCons(a: string, rest: string)
    requires '\n' !in a
    ensures Lines(a + "\n" + rest) == [a] + Lines(rest)
  {
    var s := a + "\n" + rest;
    FirstBreak(a, rest);
    assert s[..|a|] == a;
    assert s[|a| + 1..] == rest;
  }

  /** Splitting text written line by line gives its lines back. */
  lemma {:induction false} LinesOfUnlines(ls: seq<string>, last: string)
    requires forall i :: 0 <= i < |ls| ==> '\n' !in ls[i]
    requires '\n' !in last
    ensures Lines(Unlines(ls) + last) == ls + [last]
  {
    if ls == [] {
      assert Unlines(ls) + last == last;
    } else {
      var rest := Unlines(ls[1..]) + last;
      assert Unlines(ls) + last == ls[0] + "\n" + rest by {
        ConcatAssoc(ls[0] + "\n", Unlines(ls[1..]), last);
      }
      LinesCons(ls[0], rest);
      LinesOfUnlines(ls[1..], last);
      ConcatAssoc([ls[0]], ls[1..], [last]);
      assert [ls[0]] + ls[1..] == ls;
    }
  }

  /** `sep.join(xs)`. */
  function Join(xs: seq<string>, sep: string): string {
    if xs == [] then "" else if |xs| == 1 then xs[0] else xs[0] + sep + Join(xs[1..], sep)
  }

  lemma {:induction false} JoinSnoc(xs: seq<string>, x: string, sep: string)
    requires xs != []
    ensures Join(xs + [x], sep) == Join(xs, sep) + sep + x
  {
    if |xs| == 1 {
      assert xs + [x] == [xs[0], x];
    } else {
      assert (xs + [x])[1..] == xs[1..] + [x];
      JoinSnoc(xs[1..], x, sep);
    }
  }

  /** A character that occurs in neither part does not occur in the whole. */
  lemma AbsentFromConcat(a: string, b: string, c: char)
    requires c !in a && c !in b
    ensures c !in a + b
  {
  }

  /** A character absent from a text is absent from its prefixes. */
  lemma AbsentFromPrefix(s: string, k: nat, c: char)
    requires c !in s && k <= |s|
    ensures c !in s[..k]
  {
  }

  /** Cutting characters off the end of a concatenation cuts them off its
      second part, when that part is long enough. */
  lemma CutEnd(a: string, b: string, n: nat)
    requires n <= |b|
    ensures (a + b)[..|a + b| - n] == a + b[..|b| - n]
  {
  }

  /** Regrouping a concatenation; used to keep the proofs about text that
      grows piece by piece small. */
  lemma ConcatAssoc<T>(a: seq<T>, b: seq<T>, c: seq<T>)
    ensures a + b + c == a + (b + c)
  {
  }
}
