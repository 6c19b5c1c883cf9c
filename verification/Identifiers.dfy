/** The schema identifiers that the query guard and the data runner derive from the same
    identity (query-tool/execute_guard.py, data-runner/app.py). */
module Identifiers {
  import opened Prelude
  import opened TextRuns
  import opened Trimming

  lemma AlnumsAre(c: char)
    ensures IsAlnum(c) <==> c in SMALLS || c in FIGURES
  {
    if 'a' <= c <= 'z' {
      assert SMALLS[c as int - 'a' as int] == c;
    }
    if '0' <= c <= '9' {
      assert FIGURES[c as int - '0' as int] == c;
    }
  }

  /** `re.sub(r"[^a-z0-9]+", "_", s)`. */
  function Collapse(s: string): string {
    if s == "" then ""
    else if IsAlnum(s[0]) then [s[0]] + Collapse(s[1..])
    else "_" + Collapse(StripLeft(s, Gaps))
  }

  function SanitizeIdent(value: string): string {
    var core := Strip(Collapse(LowerAll(value)), Bars);
    if core == "" then "user" else core
  }

  function PersonalSchema(uid: string): string {
    "personal_" + SanitizeIdent(uid)
  }

  /** The data runner's `slug`. */
  function Slug(value: string): string {
    Strip(Collapse(LowerAll(PyStrip(value))), Bars)
  }

  datatype LaneError = NoUid | NoDataset | SchemaNotAllowed(requested: string)

  /** The personal-lane namespace of `ingest`: derived from the caller, never from the body. */
  function IngestNamespace(principal: string, dataset: string, schema: string): Result<string, LaneError> {
    var uid := Slug(principal);
    if uid == "" then Err(NoUid)
    else if Slug(dataset) == "" then Err(NoDataset)
    else
      var namespace := "personal_" + uid;
      var requested := Slug(if schema == "" then namespace else schema);
      if requested != namespace then Err(SchemaNotAllowed(requested)) else Ok(namespace)
  }

  // ------------------------------------------------- the reference: words

  function JoinBars(words: seq<string>): string {
    if words == [] then ""
    else if |words| == 1 then words[0]
    else words[0] + "_" + JoinBars(words[1..])
  }

  /** The lower-case alphanumeric words of a value. */
  function Words(value: string): seq<string> {
    Runs(LowerAll(value), Alnums)
  }

  /** Alphanumerics and bars, no two bars side by side. */
  predicate IsTidy(s: string) {
    && (forall i :: 0 <= i < |s| ==> IsAlnum(s[i]) || s[i] == '_')
    && (forall i :: 0 <= i < |s| - 1 ==> IsAlnum(s[i]) || IsAlnum(s[i + 1]))
  }

  /** The language `[a-z0-9]+(_[a-z0-9]+)*`. */
  predicate IsCanonical(s: string) {
    s != "" && IsAlnum(s[0]) && IsAlnum(s[|s| - 1]) && IsTidy(s)
  }

  lemma {:induction false} CollapseWord(w: string, x: string)
    requires forall i :: 0 <= i < |w| ==> IsAlnum(w[i])
    ensures Collapse(w + x) == w + Collapse(x)
  {
    if w == "" {
      assert w + x == x;
    } else {
      assert (w + x)[1..] == w[1..] + x;
      CollapseWord(w[1..], x);
      assert [w[0]] + (w[1..] + Collapse(x)) == w + Collapse(x);
    }
  }

  lemma StripRightKeeps(w: string, x: string)
    requires w != "" && w[|w| - 1] != '_'
    ensures StripRight(w + x, Bars) == w + StripRight(x, Bars)
  {
    var n := KeptLength(x, Bars);
    var kept, bars := x[..n], x[n..];
    assert w + x == (w + kept) + bars;
    StripRightPadded(w + kept, bars, Bars);
  }

  /** A leading bar stays exactly when something else does. */
  lemma StripRightAfterBar(x: string)
    ensures StripRight("_" + x, Bars) == if StripRight(x, Bars) == "" then "" else "_" + StripRight(x, Bars)
  {
    var n := KeptLength(x, Bars);
    var kept, bars := x[..n], x[n..];
    if kept == "" {
      assert "" + ("_" + x) == "_" + x;
      StripRightPadded("", "_" + x, Bars);
    } else {
      assert "_" + x == ("_" + kept) + bars;
      StripRightPadded("_" + kept, bars, Bars);
    }
  }

  /** From a word boundary on, stripping the right end leaves a bar before each word. */
  lemma {:induction false} TailIsWords(s: string)
    requires s != "" ==> IsGap(s[0])
    ensures StripRight(Collapse(s), Bars) == Barred(Runs(s, Alnums))
    decreases |s|
  {
    if s != "" {
      var rest := StripLeft(s, Gaps);
      var gap := s[..RunLength(s, Gaps)];
      assert s == gap + rest;
      assert Runs(s, Alnums) == Runs(rest, Alnums) by { RunsSkipPrefix(gap, rest, Alnums); }
      StripRightAfterBar(Collapse(rest));
      if rest != "" {
        WordThenTail(rest);
      }
    }
  }

  lemma {:induction false} WordThenTail(s: string)
    requires s != "" && IsAlnum(s[0])
    ensures StripRight(Collapse(s), Bars) == JoinBars(Runs(s, Alnums)) != ""
    decreases |s|
  {
    var n := RunLength(s, Alnums);
    var w, rest := s[..n], s[n..];
    assert s == w + rest;
    CollapseWord(w, rest);
    StripRightKeeps(w, Collapse(rest));
    TailIsWords(rest);
    assert Runs(s, Alnums) == [w] + Runs(rest, Alnums);
    BarredIsJoin(w, Runs(rest, Alnums));
  }

  function Barred(words: seq<string>): string {
    if words == [] then "" else "_" + JoinBars(words)
  }

  lemma BarredIsJoin(w: string, words: seq<string>)
    ensures JoinBars([w] + words) == w + Barred(words)
  {
    assert ([w] + words)[1..] == words;
  }

  lemma StripLeftOnce(x: string)
    requires x == "" || x[0] != '_'
    ensures StripLeft("_" + x, Bars) == x == StripLeft(x, Bars)
  {
    StripLeftPadded("_", x, Bars);
    StripLeftPadded("", x, Bars);
    assert "" + x == x;
  }

  /** Sanitising is taking the words and joining them with single bars. */
  lemma {:induction false} CoreIsWords(s: string)
    ensures Strip(Collapse(s), Bars) == JoinBars(Runs(s, Alnums))
  {
    var rest := StripLeft(s, Gaps);
    var gap := s[..RunLength(s, Gaps)];
    assert s == gap + rest;
    assert Runs(s, Alnums) == Runs(rest, Alnums) by { RunsSkipPrefix(gap, rest, Alnums); }
    StripLeftOnce(Collapse(rest));
    if rest != "" {
      WordThenTail(rest);
    }
  }

  // ------------------------------------------------- canonical identifiers

  predicate AreWords(words: seq<string>) {
    forall k :: 0 <= k < |words| ==> words[k] != "" && forall i :: 0 <= i < |words[k]| ==> IsAlnum(words[k][i])
  }

  lemma WordThenCanonical(w: string, t: string)
    requires w != "" && (forall i :: 0 <= i < |w| ==> IsAlnum(w[i])) && IsCanonical(t)
    ensures IsCanonical(w + "_" + t)
  {
    var s := w + "_" + t;
    assert forall i :: |w| < i < |s| ==> s[i] == t[i - |w| - 1];
    assert s[|w|] == '_' && forall i :: 0 <= i < |w| ==> s[i] == w[i];
  }

  lemma {:induction false} JoinedIsCanonical(words: seq<string>)
    requires AreWords(words) && words != []
    ensures IsCanonical(JoinBars(words))
  {
    if |words| > 1 {
      JoinedIsCanonical(words[1..]);
      WordThenCanonical(words[0], JoinBars(words[1..]));
    }
  }

  /** Joining loses nothing: the words can be read back. */
  lemma {:induction false} JoinThenRuns(words: seq<string>)
    requires AreWords(words)
    ensures Runs(JoinBars(words), Alnums) == words
  {
    if words != [] {
      var w, rest := words[0], words[1..];
      assert [w] + rest == words;
      JoinThenRuns(rest);
      BarredIsJoin(w, rest);
      BarredRuns(rest);
      RunsAppend(w, Barred(rest), Alnums);
      OneRun(w);
    }
  }

  lemma BarredRuns(words: seq<string>)
    ensures words != [] ==> Runs(Barred(words), Alnums) == Runs(JoinBars(words), Alnums)
  {
    RunsSkipPrefix("_", JoinBars(words), Alnums);
  }

  lemma OneRun(w: string)
    requires w != "" && forall i :: 0 <= i < |w| ==> IsAlnum(w[i])
    ensures Runs(w, Alnums) == [w]
  {
    FullRun(w, Alnums);
    assert w[..|w|] == w && w[|w|..] == "";
    assert Runs("", Alnums) == [];
  }

  lemma {:induction false} TidyStays(s: string)
    requires IsTidy(s)
    ensures Collapse(s) == s
  {
    if s != "" {
      var t := s[1..];
      TidyTail(s);
      TidyStays(t);
      assert s == [s[0]] + t;
    }
  }

  lemma TidyTail(s: string)
    requires s != "" && IsTidy(s)
    ensures IsTidy(s[1..])
    ensures IsAlnum(s[0]) || (s[0] == '_' && StripLeft(s, Gaps) == s[1..])
  {
    var t := s[1..];
    assert forall i :: 0 <= i < |t| ==> t[i] == s[i + 1];
    if s[0] == '_' {
      assert s[0] == s[0 + 0] && (|s| > 1 ==> IsAlnum(s[0 + 1]));
      assert RunLength(s, Gaps) == 1;
    }
  }

  lemma SanitizeIsWords(v: string)
    ensures AreWords(Words(v))
    ensures SanitizeIdent(v) == if Words(v) == [] then "user" else JoinBars(Words(v))
  {
    RunsAreRuns(LowerAll(v), Alnums);
    CoreIsWords(LowerAll(v));
    if Words(v) != [] {
      JoinedIsCanonical(Words(v));
    }
  }

  function NameWords(v: string): seq<string> {
    NamedOr(Words(v), "user")
  }

  function NamedOr(words: seq<string>, name: string): seq<string> {
    if words == [] then [name] else words
  }

  lemma NamedOrIsWords(words: seq<string>)
    requires AreWords(words)
    ensures AreWords(NamedOr(words, "user")) && NamedOr(words, "user") != []
    ensures JoinBars(NamedOr(words, "user")) == if words == [] then "user" else JoinBars(words)
  {
    assert forall i :: 0 <= i < 4 ==> IsAlnum("user"[i]);
  }

  lemma SanitizeIsNameWords(v: string)
    ensures AreWords(NameWords(v)) && NameWords(v) != []
    ensures SanitizeIdent(v) == JoinBars(NameWords(v))
  {
    SanitizeIsWords(v);
    NamedOrIsWords(Words(v));
  }

  lemma SanitizeIsCanonical(v: string)
    ensures IsCanonical(SanitizeIdent(v))
  {
    SanitizeIsNameWords(v);
    JoinedIsCanonical(NameWords(v));
  }

  /** The fixed points are exactly the canonical identifiers; so sanitising twice changes nothing. */
  lemma FixedPointIffCanonical(s: string)
    ensures SanitizeIdent(s) == s <==> IsCanonical(s)
    ensures SanitizeIdent(SanitizeIdent(s)) == SanitizeIdent(s)
  {
    SanitizeIsCanonical(s);
    CanonicalStays(SanitizeIdent(s));
    if IsCanonical(s) {
      CanonicalStays(s);
    }
  }

  lemma LowerStays(s: string)
    requires forall i :: 0 <= i < |s| ==> IsAlnum(s[i]) || s[i] == '_'
    ensures LowerAll(s) == s
  {
    assert forall i :: 0 <= i < |s| ==> LowerAll(s)[i] == Lower(s[i]) == s[i];
  }

  lemma StripStays(s: string)
    requires s != "" && s[0] != '_' && s[|s| - 1] != '_'
    ensures Strip(s, Bars) == s
  {
  }

  lemma CanonicalStays(s: string)
    requires IsCanonical(s)
    ensures SanitizeIdent(s) == s
  {
    LowerStays(s);
    TidyStays(s);
    StripStays(s);
  }

  /** Two identities share a schema exactly when they have the same lower-case words,
      except that having none is the same as being called "user". */
  lemma SchemasCollideIff(a: string, b: string)
    ensures PersonalSchema(a) == PersonalSchema(b) <==> NameWords(a) == NameWords(b)
  {
    SanitizeIsNameWords(a);
    SanitizeIsNameWords(b);
    JoinThenRuns(NameWords(a));
    JoinThenRuns(NameWords(b));
    assert PersonalSchema(a)[9..] == SanitizeIdent(a);
    assert PersonalSchema(b)[9..] == SanitizeIdent(b);
  }

  lemma PaddingHasNoWords(a: string, m: string, b: string)
    requires AllSpace(a) && AllSpace(b)
    ensures Words(a + (m + b)) == Words(m)
  {
    var la, lm, lb := LowerAll(a), LowerAll(m), LowerAll(b);
    assert forall i :: 0 <= i < |a| ==> !IsAlnum(la[i]);
    assert forall i :: 0 <= i < |b| ==> !IsAlnum(lb[i]);
    assert LowerAll(a + (m + b)) == la + (lm + lb);
    RunsSkipPrefix(la, lm + lb, Alnums);
    RunsAppend(lm, lb, Alnums);
    NoRuns(lb, Alnums);
  }

  /** Stripping white space does not change the words. */
  lemma StripKeepsWords(v: string)
    ensures Words(PyStrip(v)) == Words(v)
  {
    var a, b := StripIsTrimmed(v);
    PaddingHasNoWords(a, PyStrip(v), b);
  }

  /** The two services agree, up to the name given to an identity without any word. */
  lemma SlugIsSanitize(v: string)
    ensures SanitizeIdent(v) == if Slug(v) == "" then "user" else Slug(v)
    ensures Slug(v) == "" <==> Words(v) == []
  {
    StripKeepsWords(v);
    CoreIsWords(LowerAll(PyStrip(v)));
    SanitizeIsWords(v);
    if Words(v) != [] {
      JoinedIsCanonical(Words(v));
    }
  }

  lemma PrefixIsCanonical(s: string)
    requires IsCanonical(s)
    ensures IsCanonical("personal_" + s)
  {
    var a, p := "personal_", "personal_" + s;
    assert forall i :: 0 <= i < 8 ==> IsAlnum(a[i]);
    assert forall i :: 0 <= i < 9 ==> p[i] == a[i];
    assert forall i :: 9 <= i < |p| ==> p[i] == s[i - 9];
  }

  /** The personal schema is itself an identifier both services leave alone. */
  lemma PersonalIsStable(v: string)
    ensures IsCanonical(PersonalSchema(v))
    ensures SanitizeIdent(PersonalSchema(v)) == PersonalSchema(v) == Slug(PersonalSchema(v))
  {
    SanitizeIsCanonical(v);
    PrefixIsCanonical(SanitizeIdent(v));
    var p := PersonalSchema(v);
    CanonicalStays(p);
    SlugIsSanitize(p);
    assert p[0] == 'p' && "user"[0] == 'u';
  }

  lemma SluggedSchema(schema: string, namespace: string)
    requires namespace != "" && namespace != "user"
    ensures Slug(schema) == namespace <==> SanitizeIdent(schema) == namespace
  {
    SlugIsSanitize(schema);
  }

  lemma PersonalIsNotUser(uid: string)
    ensures PersonalSchema(uid) != "" && PersonalSchema(uid) != "user"
  {
    assert PersonalSchema(uid)[0] == 'p' && "user"[0] == 'u';
  }

  /** The data runner writes where the guard lets the same identity write, and exactly for a
      request that names no schema or one that sanitises to that place. */
  lemma IngestAgreesWithGuard(principal: string, dataset: string, schema: string)
    ensures var r := IngestNamespace(principal, dataset, schema);
      && (r.Ok? ==> r.value == "personal_" + SanitizeIdent(principal) == PersonalSchema(principal))
      && (r == Err(NoUid) <==> Words(principal) == [])
      && (r == Err(NoDataset) <==> Words(principal) != [] && Words(dataset) == [])
      && (r.Ok? <==> Words(principal) != [] && Words(dataset) != []
                     && (schema == "" || SanitizeIdent(schema) == PersonalSchema(principal)))
  {
    SlugIsSanitize(principal);
    SlugIsSanitize(dataset);
    PersonalIsStable(principal);
    PersonalIsNotUser(principal);
    SluggedSchema(schema, PersonalSchema(principal));
  }
}
