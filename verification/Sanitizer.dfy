/** Turning a fetched page into plain text (web-fetch/app.py): elements, tags and white space
    are cut, the rest is kept in order, and the length is bounded. */
module Sanitizer {
  import opened Prelude
  import opened TextRuns
  import opened Trimming

  /** `s` starts with the lower-case text `w`, in any case. */
  predicate Leads(s: string, w: string) {
    |w| <= |s| && forall k :: 0 <= k < |w| ==> Lower(s[k]) == w[k]
  }

  function Later(r: Option<nat>, n: nat): Option<nat> {
    if r.Some? then Some(n + r.value) else None
  }

  function Closing(name: string): string {
    "</" + name + ">"
  }

  /** The end of the first `close` of `s`. */
  function FindClose(s: string, close: string): (r: Option<nat>)
    ensures r.Some? ==> r.value <= |s|
  {
    if Leads(s, close) then Some(|close|)
    else if s == "" then None
    else Later(FindClose(s[1..], close), 1)
  }

  /** `.*?>.*?close`: the first `>` after which there is a close, up to the first such close. */
  function LazyRest(s: string, close: string): (r: Option<nat>)
    ensures r.Some? ==> r.value <= |s| && '>' in s
  {
    if s == "" then None
    else if s[0] == '>' && FindClose(s[1..], close).Some? then Later(FindClose(s[1..], close), 1)
    else Later(LazyRest(s[1..], close), 1)
  }

  /** `<name\b` at the start of `s`. */
  predicate Opens(s: string, name: string) {
    Leads(s, "<" + name) && (|s| == |name| + 1 || !IsWordChar(s[|name| + 1]))
  }

  function NamedElementEnd(s: string, name: string): (r: Option<nat>)
    requires name != ""
    ensures r.Some? ==> 0 < r.value <= |s|
  {
    if Opens(s, name) then Later(LazyRest(s[|name| + 1..], Closing(name)), |name| + 1) else None
  }

  /** `(?is)<(script|style)\b.*?>.*?</\1>` at the start of `s`: where the match ends. */
  function ElementEnd(s: string): (r: Option<nat>)
    ensures r.Some? ==> 0 < r.value <= |s|
  {
    var script := NamedElementEnd(s, "script");
    if script.Some? then script else NamedElementEnd(s, "style")
  }

  function RemoveElements(s: string): string {
    if s == "" then ""
    else
      var end := ElementEnd(s);
      if end.Some? then " " + RemoveElements(s[end.value..]) else [s[0]] + RemoveElements(s[1..])
  }

  function FirstClose(s: string): (n: nat)
    ensures n <= |s|
    ensures forall i :: 0 <= i < n ==> s[i] != '>'
    ensures n < |s| ==> s[n] == '>'
  {
    if s == "" || s[0] == '>' then 0 else 1 + FirstClose(s[1..])
  }

  /** `<[^>]+>` matches at the start of `s`. */
  predicate TagHere(s: string) {
    |s| >= 3 && s[0] == '<' && s[1] != '>' && '>' in s[2..]
  }

  /** `re.sub(r"(?s)<[^>]+>", " ", s)` */
  function StripTags(s: string): string {
    if s == "" then ""
    else if TagHere(s) then " " + StripTags(s[FirstClose(s) + 1..])
    else [s[0]] + StripTags(s[1..])
  }

  /** `re.sub(r"\s+", " ", s)` */
  function CollapseSpace(s: string): string {
    if s == "" then ""
    else if IsPySpace(s[0]) then " " + CollapseSpace(StripLeft(s, PySpaces))
    else [s[0]] + CollapseSpace(s[1..])
  }

  function Clean(text: string): string {
    PyStrip(CollapseSpace(StripTags(RemoveElements(text))))
  }

  function Cut(t: string, limit: nat): string {
    if |t| <= limit then t else t[..limit]
  }

  function Sanitize(text: string, limit: nat): string {
    Cut(Clean(text), limit)
  }

  // ----------------------------------------------------------- no tags

  /** No `<`, non-empty run without `>`, then `>`. */
  predicate TagFree(s: string) {
    s == "" || (!TagHere(s) && TagFree(s[1..]))
  }

  /** A tag from position `i` to position `j`. */
  predicate IsTag(s: string, i: nat, j: nat) {
    i + 1 < j < |s| && s[i] == '<' && s[j] == '>' && forall k :: i < k < j ==> s[k] != '>'
  }

  predicate HasTag(s: string) {
    exists i, j :: 0 <= i < j < |s| && IsTag(s, i, j)
  }

  lemma {:induction false} TagIsSeen(s: string, i: nat, j: nat)
    requires IsTag(s, i, j)
    ensures !TagFree(s)
  {
    if i == 0 {
      assert s[2..][j - 2] == '>';
    } else {
      TagIsSeen(s[1..], i - 1, j - 1);
    }
  }

  lemma {:induction false} TagFreeIff(s: string)
    ensures TagFree(s) <==> !HasTag(s)
  {
    if HasTag(s) {
      var i, j :| 0 <= i < j < |s| && IsTag(s, i, j);
      TagIsSeen(s, i, j);
    } else if s != "" {
      if TagHere(s) {
        var k :| 0 <= k < |s| - 2 && s[2..][k] == '>';
        assert s[2 + k] == '>';
        assert IsTag(s, 0, FirstClose(s));
      }
      if HasTag(s[1..]) {
        var i, j :| 0 <= i < j < |s| - 1 && IsTag(s[1..], i, j);
        assert IsTag(s, i + 1, j + 1);
      }
      TagFreeIff(s[1..]);
    }
  }

  lemma {:induction false} WithoutClose(s: string)
    requires '>' !in s
    ensures StripTags(s) == s && RemoveElements(s) == s && TagFree(s)
  {
    if s != "" {
      WithoutClose(s[1..]);
    }
  }

  lemma {:induction false} StripTagsIsTagFree(s: string)
    ensures TagFree(StripTags(s))
    decreases |s|
  {
    if s != "" {
      if TagHere(s) {
        StripTagsIsTagFree(s[FirstClose(s) + 1..]);
      } else {
        var t := s[1..];
        var r := StripTags(s);
        StripTagsIsTagFree(t);
        assert r[1..] == StripTags(t);
        if s[0] == '<' && t != "" && t[0] != '>' {
          WithoutClose(t);
        }
      }
    }
  }

  lemma {:induction false} CollapseAddsNone(s: string)
    ensures forall c :: c in CollapseSpace(s) && c != ' ' ==> c in s
    decreases |s|
  {
    if s != "" {
      CollapseAddsNone(if IsPySpace(s[0]) then StripLeft(s, PySpaces) else s[1..]);
    }
  }

  lemma {:induction false} TagFreeSuffix(s: string, n: nat)
    requires TagFree(s) && n <= |s|
    ensures TagFree(s[n..])
  {
    if n > 0 {
      TagFreeSuffix(s[1..], n - 1);
    }
  }

  lemma {:induction false} CollapseKeepsTagFree(s: string)
    requires TagFree(s)
    ensures TagFree(CollapseSpace(s))
    decreases |s|
  {
    if s != "" {
      var t := if IsPySpace(s[0]) then StripLeft(s, PySpaces) else s[1..];
      var r := CollapseSpace(s);
      assert r[1..] == CollapseSpace(t);
      TagFreeSuffix(s, |s| - |t|);
      CollapseKeepsTagFree(t);
      if s[0] == '<' {
        NoTagAfterCollapse(t);
      }
    }
  }

  lemma TagHereIff(t: string)
    ensures TagHere("<" + t) <==> t != "" && t[0] != '>' && '>' in t
  {
    var s := "<" + t;
    if t != "" {
      assert s[2..] == t[1..] && t == [t[0]] + t[1..];
    }
  }

  lemma NoTagAfterCollapse(t: string)
    requires !TagHere("<" + t)
    ensures !TagHere("<" + CollapseSpace(t))
  {
    TagHereIff(t);
    TagHereIff(CollapseSpace(t));
    CollapseAddsNone(t);
  }

  // ------------------------------------------------------- idempotence

  lemma OpensTag(s: string, name: string)
    requires name != "" && name[0] != '>' && IsAllLetters(name)
    requires NamedElementEnd(s, name).Some?
    ensures TagHere(s)
  {
    var k :| 0 <= k < |s[|name| + 1..]| && s[|name| + 1..][k] == '>';
    assert s[2..][|name| - 1 + k] == '>';
    assert Lower(s[0]) == '<' && Lower(s[1]) == ("<" + name)[1];
  }

  predicate IsAllLetters(w: string) {
    forall k :: 0 <= k < |w| ==> 'a' <= w[k] <= 'z'
  }

  lemma {:induction false} TagFreeIsLeft(s: string)
    requires TagFree(s)
    ensures RemoveElements(s) == s && StripTags(s) == s
  {
    if s != "" {
      TagFreeIsLeft(s[1..]);
      if NamedElementEnd(s, "script").Some? {
        OpensTag(s, "script");
      } else if NamedElementEnd(s, "style").Some? {
        OpensTag(s, "style");
      }
      assert s == [s[0]] + s[1..];
    }
  }

  /** White space only as single spaces. */
  predicate IsSpaced(s: string) {
    && (forall i :: 0 <= i < |s| ==> (IsPySpace(s[i]) ==> s[i] == ' '))
    && (forall i :: 0 <= i < |s| - 1 ==> !IsPySpace(s[i]) || !IsPySpace(s[i + 1]))
  }

  lemma {:induction false} CollapseIsSpaced(s: string)
    ensures IsSpaced(CollapseSpace(s))
    ensures s != "" && !IsPySpace(s[0]) ==> !IsPySpace(CollapseSpace(s)[0])
    decreases |s|
  {
    if s != "" {
      var t := if IsPySpace(s[0]) then StripLeft(s, PySpaces) else s[1..];
      CollapseIsSpaced(t);
      var r := CollapseSpace(s);
      assert forall i :: 0 < i < |r| ==> r[i] == CollapseSpace(t)[i - 1];
    }
  }

  lemma {:induction false} SpacedStays(s: string)
    requires IsSpaced(s)
    ensures CollapseSpace(s) == s
  {
    if s != "" {
      var t := s[1..];
      assert forall i :: 0 <= i < |t| ==> t[i] == s[i + 1];
      SpacedStays(t);
      assert s == [s[0]] + t;
      if IsPySpace(s[0]) {
        assert StripLeft(s, PySpaces) == t;
      }
    }
  }

  lemma TagFreePrefix(s: string, b: string)
    requires TagFree(s + b)
    ensures TagFree(s)
  {
    TagFreeIff(s);
    if HasTag(s) {
      var i, j :| 0 <= i < j < |s| && IsTag(s, i, j);
      TagIsSeen(s + b, i, j);
    }
  }

  predicate IsPlain(s: string) {
    TagFree(s) && IsSpaced(s)
  }

  lemma PlainPart(a: string, s: string, b: string)
    requires IsPlain(a + (s + b))
    ensures IsPlain(s)
  {
    var t := a + (s + b);
    assert t[|a|..] == s + b;
    TagFreeSuffix(t, |a|);
    TagFreePrefix(s, b);
    assert forall i :: 0 <= i < |s| ==> t[|a| + i] == s[i];
  }

  /** What the substitutions and the strip leave. */
  lemma CleanIsPlain(text: string)
    ensures IsPlain(Clean(text)) && (Clean(text) != "" ==> IsTrimmed(Clean(text)))
  {
    var stripped := StripTags(RemoveElements(text));
    StripTagsIsTagFree(RemoveElements(text));
    CollapseKeepsTagFree(stripped);
    CollapseIsSpaced(stripped);
    var a, b := StripIsTrimmed(CollapseSpace(stripped));
    PlainPart(a, Clean(text), b);
  }

  lemma PlainIsLeft(s: string)
    requires IsPlain(s)
    ensures Clean(s) == PyStrip(s)
  {
    TagFreeIsLeft(s);
    SpacedStays(s);
  }

  lemma CutIsPlain(t: string, limit: nat)
    requires IsPlain(t) && (t != "" ==> IsTrimmed(t))
    ensures IsPlain(Cut(t, limit)) && (Cut(t, limit) != "" ==> !IsPySpace(Cut(t, limit)[0]))
  {
    if |t| > limit {
      assert t == "" + (t[..limit] + t[limit..]);
      PlainPart("", t[..limit], t[limit..]);
    }
  }

  lemma SanitizedIsPlain(text: string, limit: nat)
    ensures IsPlain(Sanitize(text, limit))
    ensures var r := Sanitize(text, limit); r != "" ==> !IsPySpace(r[0])
  {
    CleanIsPlain(text);
    CutIsPlain(Clean(text), limit);
  }

  lemma CutIsClean(t: string, limit: nat)
    requires IsPlain(t) && (t != "" ==> IsTrimmed(t))
    ensures var r := Cut(t, limit);
      && !HasTag(r) && |r| <= limit && IsSpaced(r) && (r != "" ==> !IsPySpace(r[0]))
      && (r != "" && IsPySpace(r[|r| - 1]) ==> |r| == limit < |t|)
  {
    CutIsPlain(t, limit);
    TagFreeIff(Cut(t, limit));
  }

  lemma CleanedIsClean(text: string, t: string, limit: nat)
    requires t == Clean(text)
    ensures var r := Cut(t, limit);
      && !HasTag(r) && |r| <= limit && IsSpaced(r) && (r != "" ==> !IsPySpace(r[0]))
      && (r != "" && IsPySpace(r[|r| - 1]) ==> |r| == limit < |t|)
  {
    CleanIsPlain(text);
    CutIsClean(t, limit);
  }

  /** What comes out holds no tag, is within the limit, and shows white space only as single
      spaces between other characters, but for one that the cut may leave at the end. */
  lemma SanitizedIsClean(text: string, limit: nat)
    ensures var r := Sanitize(text, limit);
      && !HasTag(r) && |r| <= limit && IsSpaced(r)
      && (r != "" ==> !IsPySpace(r[0]))
      && (r != "" && IsPySpace(r[|r| - 1]) ==> |r| == limit < |Clean(text)|)
  {
    CleanedIsClean(text, Clean(text), limit);
  }

  /** The cut leaves a space at the end. */
  predicate CutAtSpace(text: string, limit: nat) {
    0 < limit < |Clean(text)| && Clean(text)[limit - 1] == ' '
  }

  lemma StripEnd(r: string)
    requires IsSpaced(r) && (r != "" ==> !IsPySpace(r[0]))
    ensures PyStrip(r) == if r != "" && r[|r| - 1] == ' ' then r[..|r| - 1] else r
  {
    if r != "" {
      if r[|r| - 1] == ' ' {
        var m := r[..|r| - 1];
        assert r == "" + (m + " ");
        assert m[0] == r[0] && m[|m| - 1] == r[|r| - 2];
        StripPadded("", m, " ");
      } else {
        assert r == "" + (r + "");
        StripPadded("", r, "");
      }
    }
  }

  lemma SecondPass(text: string, limit: nat)
    ensures Sanitize(Sanitize(text, limit), limit) == PyStrip(Sanitize(text, limit))
  {
    SanitizedIsPlain(text, limit);
    PlainIsLeft(Sanitize(text, limit));
  }

  lemma CutEndsInSpaceIff(t: string, limit: nat)
    requires t != "" ==> IsTrimmed(t)
    ensures var r := Cut(t, limit);
      r != "" && r[|r| - 1] == ' ' <==> 0 < limit < |t| && t[limit - 1] == ' '
  {
  }

  lemma CleanIsTrimmed(text: string)
    ensures Clean(text) != "" ==> IsTrimmed(Clean(text))
  {
    CleanIsPlain(text);
  }

  lemma EndsInSpaceIff(text: string, limit: nat)
    ensures var r := Sanitize(text, limit);
      r != "" && r[|r| - 1] == ' ' <==> CutAtSpace(text, limit)
  {
    CleanIsTrimmed(text);
    CutEndsInSpaceIff(Clean(text), limit);
  }

  /** Sanitising again changes nothing, exactly unless the cut has left a space at the end;
      in particular on every text that is not cut. */
  lemma IdempotentIff(text: string, limit: nat)
    ensures Sanitize(Sanitize(text, limit), limit) == Sanitize(text, limit) <==> !CutAtSpace(text, limit)
    ensures CutAtSpace(text, limit) ==>
      Sanitize(Sanitize(text, limit), limit) == Sanitize(text, limit)[..limit - 1]
  {
    SecondPass(text, limit);
    EndsInSpaceIff(text, limit);
    SanitizedIsPlain(text, limit);
    StripEnd(Sanitize(text, limit));
  }

  lemma TrimmedIsLeft(s: string)
    requires IsPlain(s) && IsTrimmed(s)
    ensures Clean(s) == s
  {
    PlainIsLeft(s);
    StripEnd(s);
  }

  /** Two letters with a space between them, cut at two. */
  lemma CutAfterSpace(s: string)
    requires IsPlain(s) && IsTrimmed(s) && |s| == 3 && s[1] == ' '
    ensures CutAtSpace(s, 2) && Sanitize(s, 2) == s[..2] && Sanitize(s[..2], 2) == s[..1]
  {
    TrimmedIsLeft(s);
    IdempotentIff(s, 2);
    assert s[..2][..1] == s[..1];
  }

  lemma LetterSpaceLetter()
    ensures IsPlain("a b")
  {
    TagFreeIff("a b");
  }

  /** The condition is not empty: a text of three characters. */
  lemma CutAtSpaceHappens()
    ensures var s := "a b";
      CutAtSpace(s, 2) && Sanitize(s, 2) == s[..2] && Sanitize(s[..2], 2) == s[..1]
  {
    LetterSpaceLetter();
    CutAfterSpace("a b");
  }

  // ------------------------------------------------- what the text keeps

  lemma {:induction false} CollapseBlack(w: string, x: string)
    requires forall i :: 0 <= i < |w| ==> IsBlack(w[i])
    ensures CollapseSpace(w + x) == w + CollapseSpace(x)
  {
    if w == "" {
      assert w + x == x;
    } else {
      assert (w + x)[1..] == w[1..] + x;
      CollapseBlack(w[1..], x);
      assert [w[0]] + (w[1..] + CollapseSpace(x)) == w + CollapseSpace(x);
    }
  }

  lemma {:induction false} CollapseKeepsWords(s: string)
    ensures Runs(CollapseSpace(s), Blacks) == Runs(s, Blacks)
    decreases |s|
  {
    if s != "" && IsPySpace(s[0]) {
      var rest := StripLeft(s, PySpaces);
      var gap := s[..RunLength(s, PySpaces)];
      assert s == gap + rest;
      RunsSkipPrefix(gap, rest, Blacks);
      RunsSkipPrefix(" ", CollapseSpace(rest), Blacks);
      CollapseKeepsWords(rest);
    } else if s != "" {
      var n := RunLength(s, Blacks);
      var w, rest := s[..n], s[n..];
      assert s == w + rest;
      CollapseBlack(w, rest);
      CollapseKeepsWords(rest);
      RunsAppend(w, rest, Blacks);
      RunsAppend(w, CollapseSpace(rest), Blacks);
    }
  }

  lemma StripKeepsRuns(s: string)
    ensures Runs(PyStrip(s), Blacks) == Runs(s, Blacks)
  {
    var a, b := StripIsTrimmed(s);
    RunsSkipPrefix(a, PyStrip(s) + b, Blacks);
    RunsAppend(PyStrip(s), b, Blacks);
    NoRuns(b, Blacks);
  }

  /** Cleaning keeps the words, in order, of what the two substitutions leave; so a text
      without tags keeps all of its words. */
  lemma CleanKeepsWords(text: string)
    ensures Runs(Clean(text), Blacks) == Runs(StripTags(RemoveElements(text)), Blacks)
    ensures TagFree(text) ==> Runs(Clean(text), Blacks) == Runs(text, Blacks)
  {
    var stripped := StripTags(RemoveElements(text));
    CollapseKeepsWords(stripped);
    StripKeepsRuns(CollapseSpace(stripped));
    if TagFree(text) {
      TagFreeIsLeft(text);
    }
  }

  lemma TagEnds(s: string, j: nat)
    requires IsTag(s, 0, j)
    ensures TagHere(s) && FirstClose(s) == j
  {
    assert s[2..][j - 2] == '>';
  }

  predicate NoTagBefore(s: string, i: nat) {
    forall k, l :: 0 <= k < i && k < l < |s| ==> !IsTag(s, k, l)
  }

  lemma TagIsThere(s: string, k: nat)
    requires k <= |s| && TagHere(s[k..])
    ensures exists l :: k < l < |s| && IsTag(s, k, l)
  {
    var t := s[k..];
    var m :| 0 <= m < |t| - 2 && t[2..][m] == '>';
    assert t[2 + m] == '>';
    var l := k + FirstClose(t);
    assert forall j :: k < j < l ==> s[j] == t[j - k];
    assert IsTag(s, k, l);
  }

  lemma StripStep(t: string)
    requires t != "" && !TagHere(t)
    ensures StripTags(t) == [t[0]] + StripTags(t[1..])
  {
  }

  lemma {:induction false} StripUntil(s: string, i: nat)
    requires i <= |s| && forall k :: 0 <= k < i ==> !TagHere(s[k..])
    ensures StripTags(s) == s[..i] + StripTags(s[i..])
  {
    if i == 0 {
      assert s[0..] == s;
    } else {
      StripUntil(s, i - 1);
      StripStep(s[i - 1..]);
      assert s[i - 1..][1..] == s[i..] && s[..i] == s[..i - 1] + [s[i - 1]];
    }
  }

  /** Text before the first tag is kept, the tag becomes a space, and the rest is treated alike. */
  lemma TagBecomesSpace(s: string, i: nat, j: nat)
    requires IsTag(s, i, j) && NoTagBefore(s, i)
    ensures StripTags(s) == s[..i] + (" " + StripTags(s[j + 1..]))
  {
    forall k | 0 <= k < i ensures !TagHere(s[k..]) {
      if TagHere(s[k..]) {
        TagIsThere(s, k);
      }
    }
    StripUntil(s, i);
    assert IsTag(s[i..], 0, j - i) && s[i..][j - i + 1..] == s[j + 1..];
    TagEnds(s[i..], j - i);
  }

  /** A text without tags is kept as it is. */
  lemma NoTagNoChange(s: string)
    requires !HasTag(s)
    ensures StripTags(s) == s
  {
    TagFreeIff(s);
    TagFreeIsLeft(s);
  }

  // ------------------------------------------------- what is left, word by word

  /** The words with single spaces between them. */
  function Sentence(words: seq<string>): string {
    if words == [] then ""
    else if |words| == 1 then words[0]
    else words[0] + (" " + Sentence(words[1..]))
  }

  lemma AllBlack(w: string)
    requires w != "" && forall i :: 0 <= i < |w| ==> IsBlack(w[i])
    ensures Runs(w, Blacks) == [w]
  {
    FullRun(w, Blacks);
    assert w[..|w|] == w && w[|w|..] == "";
    assert Runs("", Blacks) == [];
  }

  lemma WordThenRest(w: string, t: string)
    requires w != "" && (forall i :: 0 <= i < |w| ==> IsBlack(w[i])) && t != "" && IsBlack(t[0])
    ensures Runs(w + (" " + t), Blacks) == [w] + Runs(t, Blacks)
    ensures Runs(t, Blacks) != []
  {
    RunsAppend(w, " " + t, Blacks);
    AllBlack(w);
    RunsSkipPrefix(" ", t, Blacks);
  }

  lemma SpacedSuffix(s: string, n: nat)
    requires IsSpaced(s) && n <= |s|
    ensures IsSpaced(s[n..])
  {
    assert forall i :: 0 <= i < |s| - n ==> s[n..][i] == s[n + i];
  }

  lemma GapInside(s: string)
    requires IsSpaced(s) && IsTrimmed(s) && RunLength(s, Blacks) < |s|
    ensures var n := RunLength(s, Blacks); 0 < n && s[n] == ' ' && n + 1 < |s| && !IsPySpace(s[n + 1])
  {
    var n := RunLength(s, Blacks);
    assert IsPySpace(s[n]);
  }

  /** A spaced text that is not one word: a word, a space, and a text of the same kind. */
  lemma FirstWord(s: string) returns (w: string, t: string)
    requires IsSpaced(s) && IsTrimmed(s) && RunLength(s, Blacks) < |s|
    ensures s == w + (" " + t) && w != "" && (forall i :: 0 <= i < |w| ==> IsBlack(w[i]))
    ensures IsSpaced(t) && IsTrimmed(t)
  {
    var n := RunLength(s, Blacks);
    GapInside(s);
    w, t := s[..n], s[n + 1..];
    SpacedSuffix(s, n + 1);
    assert s[n..] == " " + t && s == w + s[n..];
  }

  /** A trimmed text with white space only as single spaces is its words, joined. */
  lemma {:induction false} SpacedIsSentence(s: string)
    requires IsSpaced(s) && IsTrimmed(s)
    ensures s == Sentence(Runs(s, Blacks))
    decreases |s|
  {
    if RunLength(s, Blacks) == |s| {
      AllBlack(s);
    } else {
      var w, t := FirstWord(s);
      SpacedIsSentence(t);
      WordThenRest(w, t);
      assert ([w] + Runs(t, Blacks))[1..] == Runs(t, Blacks);
    }
  }

  /** The whole of it, after the two substitutions: the words that they leave, in order and with
      single spaces between them, up to the limit. */
  lemma SanitizedIsSentence(text: string, limit: nat)
    ensures var t := Sentence(Runs(StripTags(RemoveElements(text)), Blacks));
      Sanitize(text, limit) == if limit < |t| then t[..limit] else t
  {
    CleanIsPlain(text);
    CleanKeepsWords(text);
    if Clean(text) != "" {
      SpacedIsSentence(Clean(text));
    }
  }

  // ------------------------------------------- one pass over the elements

  predicate ElementFree(s: string) {
    s == "" || (ElementEnd(s).None? && ElementFree(s[1..]))
  }

  lemma {:induction false} LeadsBefore(s: string, w: string)
    requires Leads(RemoveElements(s), w) && ' ' !in w
    ensures Leads(s, w) && RemoveElements(s)[|w|..] == RemoveElements(s[|w|..])
  {
    if w != "" {
      assert Lower(RemoveElements(s)[0]) == w[0];
      var r := RemoveElements(s[1..]);
      assert RemoveElements(s) == [s[0]] + r && RemoveElements(s)[1..] == r;
      assert forall k :: 0 <= k < |w| - 1 ==> Lower(r[k]) == w[k + 1];
      var t, u := s[1..], w[1..];
      LeadsBefore(t, u);
      assert forall k :: 1 <= k < |w| ==> s[k] == t[k - 1];
      assert t[|u|..] == s[|w|..];
    }
  }

  lemma {:induction false} CloseLater(s: string, n: nat, close: string)
    requires n <= |s| && FindClose(s[n..], close).Some?
    ensures FindClose(s, close).Some?
  {
    if n > 0 {
      assert s[1..][n - 1..] == s[n..];
      CloseLater(s[1..], n - 1, close);
    }
  }

  lemma {:induction false} RestLater(s: string, n: nat, close: string)
    requires n <= |s| && LazyRest(s[n..], close).Some?
    ensures LazyRest(s, close).Some?
  {
    if n > 0 {
      assert s[1..][n - 1..] == s[n..];
      RestLater(s[1..], n - 1, close);
    }
  }

  lemma {:induction false} CloseBefore(s: string, close: string)
    requires close != "" && close[0] == '<' && ' ' !in close && FindClose(RemoveElements(s), close).Some?
    ensures FindClose(s, close).Some?
    decreases |s|
  {
    var r := RemoveElements(s);
    if Leads(r, close) {
      LeadsBefore(s, close);
    } else {
      var n := if ElementEnd(s).Some? then ElementEnd(s).value else 1;
      assert r[1..] == RemoveElements(s[n..]);
      CloseBefore(s[n..], close);
      CloseLater(s, n, close);
    }
  }

  lemma {:induction false} RestBefore(s: string, close: string)
    requires close != "" && close[0] == '<' && ' ' !in close && LazyRest(RemoveElements(s), close).Some?
    ensures LazyRest(s, close).Some?
    decreases |s|
  {
    var r := RemoveElements(s);
    var n := if ElementEnd(s).Some? then ElementEnd(s).value else 1;
    assert r[1..] == RemoveElements(s[n..]);
    if r[0] == '>' && FindClose(r[1..], close).Some? {
      CloseBefore(s[1..], close);
    } else {
      RestBefore(s[n..], close);
      RestLater(s, n, close);
    }
  }

  lemma SameBoundary(t: string)
    ensures RemoveElements(t) == "" <==> t == ""
    ensures t != "" ==> IsWordChar(RemoveElements(t)[0]) == IsWordChar(t[0])
  {
    if t != "" && t[0] != '<' {
      NoElementHere(t, "script");
      NoElementHere(t, "style");
    }
  }

  lemma OpensBefore(s: string, name: string)
    requires IsAllLetters(name) && Opens(RemoveElements(s), name)
    ensures Opens(s, name) && RemoveElements(s)[|name| + 1..] == RemoveElements(s[|name| + 1..])
  {
    var n := |name| + 1;
    LeadsBefore(s, "<" + name);
    SameBoundary(s[n..]);
    assert n < |s| ==> RemoveElements(s)[n] == RemoveElements(s[n..])[0];
  }

  lemma ClosingIsPlain(name: string)
    requires IsAllLetters(name)
    ensures Closing(name) != "" && Closing(name)[0] == '<' && ' ' !in Closing(name)
  {
  }

  lemma ElementBefore(s: string, name: string)
    requires IsAllLetters(name) && name != "" && NamedElementEnd(RemoveElements(s), name).Some?
    ensures NamedElementEnd(s, name).Some?
  {
    OpensBefore(s, name);
    ClosingIsPlain(name);
    RestBefore(s[|name| + 1..], Closing(name));
  }

  lemma NoElementStays(s: string)
    requires ElementEnd(s).None?
    ensures ElementEnd(RemoveElements(s)).None?
  {
    var r := RemoveElements(s);
    if NamedElementEnd(r, "script").Some? {
      ElementBefore(s, "script");
    }
    if NamedElementEnd(r, "style").Some? {
      ElementBefore(s, "style");
    }
  }

  /** One pass is enough: no script or style element is left, and cutting one does not
      make another. */
  lemma {:induction false} OnePassIsEnough(s: string)
    ensures ElementFree(RemoveElements(s))
    decreases |s|
  {
    if s != "" {
      var end := ElementEnd(s);
      OnePassIsEnough(s[if end.Some? then end.value else 1..]);
      if end.None? {
        NoElementStays(s);
        assert RemoveElements(s)[1..] == RemoveElements(s[1..]);
      } else {
        SpaceThenElementFree(RemoveElements(s[end.value..]));
      }
    }
  }

  lemma SpaceThenElementFree(r: string)
    requires ElementFree(r)
    ensures ElementFree(" " + r)
  {
    NoElementHere(" " + r, "script");
    NoElementHere(" " + r, "style");
    assert (" " + r)[1..] == r;
  }

  lemma NoElementHere(s: string, name: string)
    requires s != "" && s[0] != '<' && name != ""
    ensures NamedElementEnd(s, name).None?
  {
    assert ("<" + name)[0] == '<';
  }

  // ------------------------------------- the search is the shortest match

  /** `close` ends at `e`. */
  predicate CloseEndsAt(s: string, close: string, e: nat) {
    |close| <= e <= |s| && Leads(s[e - |close|..], close)
  }

  /** `.*?>.*?close` matches `s[i..e]` for every `i` up to the position `j` of its `>`. */
  predicate RestEndsAt(s: string, close: string, j: nat, e: nat) {
    j + 1 + |close| <= e && CloseEndsAt(s, close, e) && s[j] == '>'
  }

  /** `<(name)\b.*?>.*?</\1>` matches `s[..e]`, with the `>` of its first tag at `j`. */
  predicate IsElement(s: string, name: string, j: nat, e: nat) {
    Opens(s, name) && |name| + 1 <= j && RestEndsAt(s, Closing(name), j, e)
  }

  lemma CloseShifts(s: string, close: string, n: nat, e: nat)
    requires n <= |s| && |close| <= e
    ensures CloseEndsAt(s[n..], close, e) <==> CloseEndsAt(s, close, n + e)
  {
    if e <= |s| - n {
      assert s[n..][e - |close|..] == s[n + e - |close|..];
    }
  }

  lemma CloseStep(s: string, close: string)
    requires !Leads(s, close)
    ensures FindClose(s, close) == if s == "" then None else Later(FindClose(s[1..], close), 1)
  {
  }

  lemma CloseHere(s: string, close: string)
    requires Leads(s, close)
    ensures CloseEndsAt(s, close, |close|) && FindClose(s, close) == Some(|close|)
  {
    assert s[0..] == s;
  }

  lemma CloseStarts(s: string, close: string, e: nat)
    requires CloseEndsAt(s, close, e) && !Leads(s, close)
    ensures |close| < e
  {
    assert s[0..] == s;
  }

  lemma CloseLengthens(s: string, close: string, e: nat)
    requires s != "" && CloseEndsAt(s[1..], close, e)
    ensures CloseEndsAt(s, close, e + 1)
  {
    CloseShifts(s, close, 1, e);
  }

  lemma {:induction false} CloseFound(s: string, close: string, e: nat)
    requires FindClose(s, close) == Some(e)
    ensures CloseEndsAt(s, close, e)
  {
    if Leads(s, close) {
      CloseHere(s, close);
    } else {
      CloseStep(s, close);
      CloseFound(s[1..], close, e - 1);
      CloseLengthens(s, close, e - 1);
    }
  }

  lemma {:induction false} CloseIsFirst(s: string, close: string, e: nat)
    requires CloseEndsAt(s, close, e)
    ensures FindClose(s, close).Some? && FindClose(s, close).value <= e
  {
    if Leads(s, close) {
      CloseHere(s, close);
    } else {
      CloseStarts(s, close, e);
      CloseShifts(s, close, 1, e - 1);
      CloseIsFirst(s[1..], close, e - 1);
      CloseStep(s, close);
    }
  }

  lemma RestStep(s: string, close: string)
    requires s != ""
    ensures LazyRest(s, close)
         == if s[0] == '>' && FindClose(s[1..], close).Some? then Later(FindClose(s[1..], close), 1)
            else Later(LazyRest(s[1..], close), 1)
  {
  }

  lemma RestHere(s: string, close: string, e: nat)
    requires s != "" && s[0] == '>' && FindClose(s[1..], close) == Some(e)
    ensures RestEndsAt(s, close, 0, e + 1)
  {
    CloseFound(s[1..], close, e);
    CloseLengthens(s, close, e);
  }

  lemma RestShifts(s: string, close: string, j: nat, e: nat)
    requires s != ""
    ensures RestEndsAt(s[1..], close, j, e) <==> RestEndsAt(s, close, j + 1, e + 1)
  {
    if |close| <= e {
      CloseShifts(s, close, 1, e);
    }
  }

  lemma {:induction false} RestFound(s: string, close: string) returns (j: nat)
    requires LazyRest(s, close).Some?
    ensures RestEndsAt(s, close, j, LazyRest(s, close).value)
  {
    RestStep(s, close);
    if s[0] == '>' && FindClose(s[1..], close).Some? {
      RestHere(s, close, FindClose(s[1..], close).value);
      return 0;
    }
    var k := RestFound(s[1..], close);
    RestShifts(s, close, k, LazyRest(s[1..], close).value);
    return k + 1;
  }

  lemma RestHasClose(s: string, close: string, j: nat, e: nat)
    requires RestEndsAt(s, close, j, e)
    ensures FindClose(s[1..], close).Some? && FindClose(s[1..], close).value <= e - 1
  {
    CloseShifts(s, close, 1, e - 1);
    CloseIsFirst(s[1..], close, e - 1);
  }

  lemma {:induction false} RestIsFirst(s: string, close: string, j: nat, e: nat)
    requires RestEndsAt(s, close, j, e)
    ensures LazyRest(s, close).Some? && LazyRest(s, close).value <= e
  {
    RestStep(s, close);
    if s[0] == '>' {
      RestHasClose(s, close, j, e);
    } else {
      RestShifts(s, close, j - 1, e - 1);
      RestIsFirst(s[1..], close, j - 1, e - 1);
    }
  }

  lemma ElementShifts(s: string, name: string, j: nat, e: nat)
    requires Opens(s, name) && RestEndsAt(s[|name| + 1..], Closing(name), j, e)
    ensures IsElement(s, name, |name| + 1 + j, |name| + 1 + e)
  {
    CloseShifts(s, Closing(name), |name| + 1, e);
  }

  /** What the first substitution cuts at a position is an element there, and no element there
      is shorter; so it cuts nothing only where there is none. */
  lemma CutIsElement(s: string, name: string) returns (j: nat)
    requires name != "" && NamedElementEnd(s, name).Some?
    ensures IsElement(s, name, j, NamedElementEnd(s, name).value)
  {
    var rest, close := s[|name| + 1..], Closing(name);
    var k := RestFound(rest, close);
    ElementShifts(s, name, k, LazyRest(rest, close).value);
    j := |name| + 1 + k;
  }

  lemma NoShorterElement(s: string, name: string, j: nat, e: nat)
    requires name != "" && IsElement(s, name, j, e)
    ensures NamedElementEnd(s, name).Some? && NamedElementEnd(s, name).value <= e
  {
    var n := |name| + 1;
    CloseShifts(s, Closing(name), n, e - n);
    RestIsFirst(s[n..], Closing(name), j - n, e - n);
  }

  // ------------------------------------- which elements, told by positions

  /** The lower-case text `word` stands at `i`, in any case. */
  predicate Spelt(s: string, i: nat, word: string) {
    i + |word| <= |s| && forall k :: 0 <= k < |word| ==> Lower(s[i + k]) == word[k]
  }

  /** `s[i..e]` is an element of the name: it is opened by the name, taken as a word; the `>` at
      `j` ends the opening tag or stands behind it; and it ends with the closing tag. */
  predicate IsNamed(s: string, name: string, i: nat, j: nat, e: nat) {
    var word, close := i + 1 + |name|, |name| + 3;
    && Spelt(s, i, "<" + name) && (word == |s| || !IsWordChar(s[word]))
    && word <= j && j + 1 + close <= e <= |s| && s[j] == '>' && Spelt(s, e - close, "</" + name + ">")
  }

  /** `s[i..e]` is a script or a style element. */
  predicate IsElementAt(s: string, i: nat, e: nat) {
    exists j :: 0 <= j < |s| && (IsNamed(s, "script", i, j, e) || IsNamed(s, "style", i, j, e))
  }

  lemma SpeltIsLed(s: string, i: nat, word: string)
    requires i <= |s|
    ensures Spelt(s, i, word) <==> Leads(s[i..], word)
  {
  }

  lemma NamedIsElement(s: string, name: string, i: nat, j: nat, e: nat)
    requires i <= |s|
    ensures IsNamed(s, name, i, i + j, i + e) <==> IsElement(s[i..], name, j, e)
  {
    var t, close := s[i..], "</" + name + ">";
    SpeltIsLed(s, i, "<" + name);
    assert Closing(name) == close && |close| == |name| + 3;
    if |name| + 1 <= |t| {
      assert |t| == |name| + 1 || t[|name| + 1] == s[i + |name| + 1];
    }
    if |close| <= e <= |t| {
      assert t[e - |close|..] == s[i + e - |close|..];
      SpeltIsLed(s, i + e - |close|, close);
    }
  }

  /** The two names cannot open at the same place. */
  lemma OneNameOpens(t: string)
    requires Opens(t, "style")
    ensures NamedElementEnd(t, "script").None?
  {
    assert Lower(t[2]) == ("<" + "style")[2] == 't' && ("<" + "script")[2] == 'c';
  }

  lemma NamedCut(s: string, name: string, i: nat) returns (j: nat)
    requires i <= |s| && name != "" && NamedElementEnd(s[i..], name).Some?
    ensures j < |s| && IsNamed(s, name, i, j, i + NamedElementEnd(s[i..], name).value)
  {
    var k := CutIsElement(s[i..], name);
    NamedIsElement(s, name, i, k, NamedElementEnd(s[i..], name).value);
    j := i + k;
  }

  lemma NamedIsCut(s: string, name: string, i: nat, j: nat, e: nat)
    requires name != "" && IsNamed(s, name, i, j, e)
    ensures i <= |s| && NamedElementEnd(s[i..], name).Some? && i + NamedElementEnd(s[i..], name).value <= e
  {
    NamedIsElement(s, name, i, j - i, e - i);
    NoShorterElement(s[i..], name, j - i, e - i);
  }

  lemma ShortestIsCut(s: string, i: nat, e: nat)
    requires IsElementAt(s, i, e)
    ensures i <= |s| && ElementEnd(s[i..]).Some? && i + ElementEnd(s[i..]).value <= e
  {
    var j :| 0 <= j < |s| && (IsNamed(s, "script", i, j, e) || IsNamed(s, "style", i, j, e));
    if IsNamed(s, "script", i, j, e) {
      NamedIsCut(s, "script", i, j, e);
    } else {
      NamedIsCut(s, "style", i, j, e);
      OneNameOpens(s[i..]);
    }
  }

  lemma CutIsThere(s: string, i: nat)
    requires i <= |s| && ElementEnd(s[i..]).Some?
    ensures IsElementAt(s, i, i + ElementEnd(s[i..]).value)
  {
    if NamedElementEnd(s[i..], "script").Some? {
      var j := NamedCut(s, "script", i);
    } else {
      var j := NamedCut(s, "style", i);
    }
  }

  /** What is cut at a position is the shortest script or style element that starts there. */
  lemma CutIsShortest(s: string, i: nat)
    requires i <= |s|
    ensures var end := ElementEnd(s[i..]);
      && (end.Some? ==> IsElementAt(s, i, i + end.value))
      && forall e: nat :: IsElementAt(s, i, e) ==> end.Some? && i + end.value <= e
  {
    if ElementEnd(s[i..]).Some? {
      CutIsThere(s, i);
    }
    forall e: nat | IsElementAt(s, i, e) ensures ElementEnd(s[i..]).Some? && i + ElementEnd(s[i..]).value <= e {
      ShortestIsCut(s, i, e);
    }
  }

  lemma RemoveStep(t: string)
    requires t != "" && ElementEnd(t).None?
    ensures RemoveElements(t) == [t[0]] + RemoveElements(t[1..])
  {
  }

  lemma {:induction false} RemoveUntil(s: string, i: nat)
    requires i <= |s| && forall k :: 0 <= k < i ==> ElementEnd(s[k..]).None?
    ensures RemoveElements(s) == s[..i] + RemoveElements(s[i..])
  {
    if i == 0 {
      assert s[0..] == s;
    } else {
      RemoveUntil(s, i - 1);
      RemoveStep(s[i - 1..]);
      assert s[i - 1..][1..] == s[i..] && s[..i] == s[..i - 1] + [s[i - 1]];
    }
  }

  ghost predicate NoElementBefore(s: string, i: nat) {
    forall k: nat, e: nat :: k < i ==> !IsElementAt(s, k, e)
  }

  lemma NothingCutBefore(s: string, i: nat)
    requires i <= |s| && NoElementBefore(s, i)
    ensures RemoveElements(s) == s[..i] + RemoveElements(s[i..])
  {
    forall k | 0 <= k < i ensures ElementEnd(s[k..]).None? {
      CutIsShortest(s, k);
    }
    RemoveUntil(s, i);
  }

  /** Text before the first script or style element is kept, the shortest element there becomes a
      space, and the rest is treated alike. */
  lemma ElementBecomesSpace(s: string, i: nat, e: nat)
    requires IsElementAt(s, i, e) && NoElementBefore(s, i)
    requires forall f: nat :: IsElementAt(s, i, f) ==> e <= f
    ensures i <= e <= |s| && RemoveElements(s) == s[..i] + (" " + RemoveElements(s[e..]))
  {
    NothingCutBefore(s, i);
    CutIsShortest(s, i);
    assert s[i..][e - i..] == s[e..];
  }

  /** A text without any is kept as it is. */
  lemma NoElementNoChange(s: string)
    requires NoElementBefore(s, |s|)
    ensures RemoveElements(s) == s
  {
    NothingCutBefore(s, |s|);
    assert s[..|s|] == s && s[|s|..] == "";
  }
}
