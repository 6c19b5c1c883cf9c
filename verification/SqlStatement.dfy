/** What both SQL doors do first, and the read door (query-tool/execute_guard.py). */
module SqlStatement {
  import opened Prelude
  import opened TextRuns
  import opened Trimming

  datatype SqlError =
    | MissingSql
    | CommentsNotAllowed
    | MultipleStatements
    | NotARead
    | NotReadOnly(verb: string)
    | StatementNotAllowed
    | MissingIdentity
    | RoleTooLow(schema: string)
    | TargetNotAllowed(schema: string)

  /** Python's `part in s`. */
  predicate Contains(s: string, part: string) {
    |part| <= |s| && (s[..|part|] == part || (s != "" && Contains(s[1..], part)))
  }

  predicate HasComment(s: string) {
    Contains(s, "--") || Contains(s, "/*") || Contains(s, "*/")
  }

  function DropSemicolon(s: string): string {
    if s != "" && s[|s| - 1] == ';' then StripRight(s[..|s| - 1], PySpaces) else s
  }

  /** The discipline shared by the two doors: one statement, no comments. */
  function SingleStatement(sql: string): Result<string, SqlError> {
    var s := PyStrip(sql);
    if s == "" then Err(MissingSql)
    else if HasComment(s) then Err(CommentsNotAllowed)
    else
      var t := DropSemicolon(s);
      if ';' in t then Err(MultipleStatements)
      else if t == "" then Err(MissingSql)
      else Ok(t)
  }

  // ---------------------------------------------------------- the read door

  const READ_LEADING: seq<string> :=
    ["select", "with", "show", "describe", "desc", "explain", "values", "table"]

  const FORBIDDEN_VERBS: seq<string> :=
    ["insert", "update", "delete", "merge", "upsert", "create", "alter", "drop", "truncate",
     "rename", "grant", "revoke", "deny", "call", "commit", "rollback", "reset", "use",
     "prepare", "deallocate"]

  predicate WordAt(s: string, word: string, i: nat) {
    && i + |word| <= |s| && s[i..i + |word|] == word
    && AtBoundary(s, i) && AtBoundary(s, i + |word|)
  }

  /** `re.search(rf"\b{word}\b", s)`, looking from position `i` on. */
  predicate SearchWord(s: string, word: string, i: nat)
    decreases |s| - i
  {
    i <= |s| && (WordAt(s, word, i) || SearchWord(s, word, i + 1))
  }

  function FirstForbidden(s: string, verbs: seq<string>): Option<string> {
    if verbs == [] then None
    else if SearchWord(s, verbs[0], 0) then Some(verbs[0])
    else FirstForbidden(s, verbs[1..])
  }

  function LeadingWord(s: string): string {
    s[..RunLength(s, Letters)]
  }

  function ReadOnly(s: string): Result<string, SqlError> {
    var lowered := LowerAll(s);
    if LeadingWord(lowered) !in READ_LEADING then Err(NotARead)
    else
      match FirstForbidden(lowered, FORBIDDEN_VERBS)
      case Some(verb) => Err(NotReadOnly(verb))
      case None => Ok(s)
  }

  function GuardRead(sql: string): Result<string, SqlError> {
    match SingleStatement(sql)
    case Err(e) => Err(e)
    case Ok(s) => ReadOnly(s)
  }

  // ------------------------------------------- what a single statement is

  predicate HasPair(s: string, c: char, d: char) {
    exists i :: 0 <= i < |s| - 1 && s[i] == c && s[i + 1] == d
  }

  /** Two hyphens, a slash before a star, or a star before a slash. */
  predicate Commented(s: string) {
    HasPair(s, '-', '-') || HasPair(s, '/', '*') || HasPair(s, '*', '/')
  }

  predicate IsStatement(s: string) {
    IsTrimmed(s) && ';' !in s && !Commented(s)
  }

  /** White space, possibly with one semicolon in it. */
  predicate IsEnding(b: string) {
    AllSpace(b) || exists k | 0 <= k < |b| :: b[k] == ';' && AllSpace(b[..k]) && AllSpace(b[k + 1..])
  }

  lemma {:induction false} ContainsPair(s: string, part: string)
    requires |part| == 2
    ensures Contains(s, part) <==> exists i :: 0 <= i < |s| - 1 && s[i] == part[0] && s[i + 1] == part[1]
  {
    if |s| >= 2 {
      var t := s[1..];
      ContainsPair(t, part);
      assert s[..2] == part <==> s[0] == part[0] && s[1] == part[1];
      if Contains(t, part) {
        var i :| 0 <= i < |t| - 1 && t[i] == part[0] && t[i + 1] == part[1];
        assert s[i + 1] == part[0] && s[i + 1 + 1] == part[1];
      }
      if i :| 0 <= i < |s| - 1 && s[i] == part[0] && s[i + 1] == part[1] && i > 0 {
        assert t[i - 1] == part[0] && t[i - 1 + 1] == part[1];
      }
    }
  }

  lemma CommentIsPair(s: string)
    ensures HasComment(s) <==> Commented(s)
  {
    ContainsPair(s, "--");
    ContainsPair(s, "/*");
    ContainsPair(s, "*/");
  }

  /** An ending adds no comment, and cannot complete one. */
  lemma EndingHidesNothing(t: string, b: string, c: char, d: char)
    requires d == '-' || d == '*' || d == '/'
    requires forall i :: 0 <= i < |b| ==> b[i] == ';' || IsPySpace(b[i])
    ensures HasPair(t + b, c, d) <==> HasPair(t, c, d)
  {
    var s := t + b;
    assert forall k :: |t| <= k < |s| ==> s[k] == b[k - |t|];
    if i :| 0 <= i < |s| - 1 && s[i] == c && s[i + 1] == d {
      assert t[i] == c && t[i + 1] == d;
    }
    if i :| 0 <= i < |t| - 1 && t[i] == c && t[i + 1] == d {
      assert s[i] == c && s[i + 1] == d;
    }
  }

  lemma EndingKeepsComments(t: string, b: string)
    requires forall i :: 0 <= i < |b| ==> b[i] == ';' || IsPySpace(b[i])
    ensures HasComment(t + b) <==> Commented(t)
  {
    CommentIsPair(t + b);
    EndingHidesNothing(t, b, '-', '-');
    EndingHidesNothing(t, b, '/', '*');
    EndingHidesNothing(t, b, '*', '/');
  }

  predicate Encloses(sql: string, a: string, t: string, b: string) {
    sql == a + (t + b) && AllSpace(a) && IsEnding(b)
  }

  /** Every enclosed statement is found. */
  lemma EnclosedIsFound(sql: string, a: string, t: string, b: string)
    requires IsStatement(t) && Encloses(sql, a, t, b)
    ensures SingleStatement(sql) == Ok(t)
  {
    CommentIsPair(t);
    if AllSpace(b) {
      StripPadded(a, t, b);
    } else {
      var k :| 0 <= k < |b| && b[k] == ';' && AllSpace(b[..k]) && AllSpace(b[k + 1..]);
      assert t + b == (t + b[..k] + ";") + b[k + 1..];
      SemicolonIsDropped(sql, a, t, b[..k], b[k + 1..]);
    }
  }

  lemma SemicolonIsDropped(sql: string, a: string, t: string, b: string, e: string)
    requires IsStatement(t) && AllSpace(a) && AllSpace(b) && AllSpace(e)
    requires sql == a + ((t + b + ";") + e)
    ensures SingleStatement(sql) == Ok(t)
  {
    var s := t + b + ";";
    StripPadded(a, s, e);
    assert s == t + (b + ";");
    EndingKeepsComments(t, b + ";");
    assert s[..|s| - 1] == t + b;
    StripRightPadded(t, b, PySpaces);
  }

  /** What is found is a statement, and the text encloses it. */
  lemma FoundIsEnclosed(sql: string) returns (a: string, b: string)
    ensures var r := SingleStatement(sql);
      r.Ok? ==> IsStatement(r.value) && Encloses(sql, a, r.value, b)
  {
    a, b := StripIsTrimmed(sql);
    var s := PyStrip(sql);
    CommentIsPair(s);
    if SingleStatement(sql).Ok? && s[|s| - 1] == ';' {
      b := DroppedIsEnding(s, b);
    }
  }

  lemma DroppedIsEnding(s: string, e: string) returns (b: string)
    requires IsTrimmed(s) && s[|s| - 1] == ';' && !HasComment(s) && AllSpace(e)
    requires DropSemicolon(s) != "" && ';' !in DropSemicolon(s)
    ensures IsStatement(DropSemicolon(s))
    ensures s + e == DropSemicolon(s) + b && IsEnding(b)
  {
    var m := BeforeSemicolon(s);
    b := m + ";" + e;
    EndingKeepsComments(DropSemicolon(s), m + ";");
    assert s == DropSemicolon(s) + (m + ";");
    assert b[|m|] == ';' && b[..|m|] == m && b[|m| + 1..] == e;
  }

  lemma BeforeSemicolon(s: string) returns (m: string)
    requires IsTrimmed(s) && s[|s| - 1] == ';'
    ensures s == DropSemicolon(s) + (m + ";") && AllSpace(m)
    ensures DropSemicolon(s) != "" ==> IsTrimmed(DropSemicolon(s))
  {
    m := RightSpace(s[..|s| - 1]);
    assert s == s[..|s| - 1] + ";";
  }

  /** Exactly the texts that are one comment-free statement, white space around it and at
      most one semicolon after it. */
  lemma SingleStatementIff(sql: string, t: string)
    ensures SingleStatement(sql) == Ok(t)
       <==> IsStatement(t) && exists a, b :: Encloses(sql, a, t, b)
  {
    var a, b := FoundIsEnclosed(sql);
    if IsStatement(t) && exists a, b :: Encloses(sql, a, t, b) {
      var a, b :| Encloses(sql, a, t, b);
      EnclosedIsFound(sql, a, t, b);
    }
  }

  lemma PaddingHidesNothing(a: string, t: string, b: string, c: char, d: char)
    requires AllSpace(a) && AllSpace(b) && !IsPySpace(c) && !IsPySpace(d)
    ensures HasPair(a + (t + b), c, d) <==> HasPair(t, c, d)
  {
    var s, n := a + (t + b), |a|;
    assert forall k :: 0 <= k < n ==> s[k] == a[k];
    assert forall k :: 0 <= k < |t| ==> s[n + k] == t[k];
    assert forall k :: n + |t| <= k < |s| ==> s[k] == b[k - n - |t|];
    if i :| 0 <= i < |s| - 1 && s[i] == c && s[i + 1] == d {
      assert t[i - n] == c && t[i - n + 1] == d;
    }
    if i :| 0 <= i < |t| - 1 && t[i] == c && t[i + 1] == d {
      assert s[n + i] == c && s[n + i + 1] == d;
    }
  }

  lemma StripKeepsComments(sql: string)
    ensures HasComment(PyStrip(sql)) <==> Commented(sql)
  {
    var a, b := StripIsTrimmed(sql);
    var s := PyStrip(sql);
    CommentIsPair(s);
    PaddingHidesNothing(a, s, b, '-', '-');
    PaddingHidesNothing(a, s, b, '/', '*');
    PaddingHidesNothing(a, s, b, '*', '/');
  }

  lemma LoneSemicolon(a: string, b: string)
    requires AllSpace(a) && AllSpace(b)
    ensures DropSemicolon(PyStrip(a + (";" + b))) == ""
  {
    StripPadded(a, ";", b);
    assert ";"[..0] == "";
  }

  lemma AroundSemicolon(a: string, m: string, b: string)
    requires AllSpace(a) && AllSpace(m) && AllSpace(b)
    ensures IsEnding(a + (m + ";" + b))
  {
    var s, k := a + (m + ";" + b), |a| + |m|;
    assert s[k] == ';' && s[..k] == a + m && s[k + 1..] == b;
  }

  /** Nothing is left exactly of white space with at most one semicolon in it. */
  lemma NothingLeftIff(sql: string)
    ensures IsEnding(sql) <==> DropSemicolon(PyStrip(sql)) == ""
  {
    if IsEnding(sql) && !AllSpace(sql) {
      var k :| 0 <= k < |sql| && sql[k] == ';' && AllSpace(sql[..k]) && AllSpace(sql[k + 1..]);
      assert sql == sql[..k] + (";" + sql[k + 1..]);
      LoneSemicolon(sql[..k], sql[k + 1..]);
    }
    if DropSemicolon(PyStrip(sql)) == "" {
      DroppedToNothing(sql);
    }
  }

  lemma DroppedToNothing(sql: string)
    requires DropSemicolon(PyStrip(sql)) == ""
    ensures IsEnding(sql)
  {
    var a, b := StripIsTrimmed(sql);
    var s := PyStrip(sql);
    if s == "" {
      assert sql == a + ("" + b);
    } else {
      var m := BeforeSemicolon(s);
      AroundSemicolon(a, m, b);
      assert sql == a + (m + ";" + b);
    }
  }

  /** Why a text is refused: for a comment exactly if one starts or ends in it; for being empty
      exactly if it is white space with at most one semicolon in it; and for being more than
      one statement in every other case in which it is not one. */
  lemma RefusedIff(sql: string)
    ensures SingleStatement(sql) == Err(CommentsNotAllowed) <==> Commented(sql)
    ensures SingleStatement(sql) == Err(MissingSql) <==> IsEnding(sql)
    ensures SingleStatement(sql) == Err(MultipleStatements)
       <==> !Commented(sql) && !IsEnding(sql) && !exists t, a, b :: IsStatement(t) && Encloses(sql, a, t, b)
  {
    StripKeepsComments(sql);
    NothingLeftIff(sql);
    if IsEnding(sql) {
      EndingHasNoComment(sql);
    }
    if t, a, b :| IsStatement(t) && Encloses(sql, a, t, b) {
      EnclosedIsFound(sql, a, t, b);
    }
    var a, b := FoundIsEnclosed(sql);
  }

  lemma EndingHasNoComment(sql: string)
    requires IsEnding(sql)
    ensures !Commented(sql)
  {
    if !AllSpace(sql) {
      var k :| 0 <= k < |sql| && sql[k] == ';' && AllSpace(sql[..k]) && AllSpace(sql[k + 1..]);
      assert forall i :: 0 <= i < k ==> sql[..k][i] == sql[i];
      assert forall i :: k < i < |sql| ==> sql[k + 1..][i - k - 1] == sql[i];
    }
    assert forall i :: 0 <= i < |sql| ==> sql[i] == ';' || IsPySpace(sql[i]);
  }

  lemma StatementIsFixed(t: string)
    requires IsStatement(t)
    ensures SingleStatement(t) == Ok(t)
  {
    assert t == "" + (t + "");
    EnclosedIsFound(t, "", t, "");
  }

  // ------------------------------------------- verbs are whole words

  predicate Occurs(s: string, word: string) {
    exists k :: 0 <= k <= |s| && WordAt(s, word, k)
  }

  lemma {:induction false} SearchFinds(s: string, word: string, i: nat)
    ensures SearchWord(s, word, i) <==> exists k :: i <= k <= |s| && WordAt(s, word, k)
    ensures i == 0 ==> SearchWord(s, word, i) == Occurs(s, word)
    decreases |s| - i
  {
    if i <= |s| {
      SearchFinds(s, word, i + 1);
    }
  }

  predicate IsWord(word: string) {
    word != "" && forall i :: 0 <= i < |word| ==> IsWordChar(word[i])
  }

  /** Past a piece that ends outside any word, or before one that begins so, nothing changes. */
  lemma ShiftWordAt(a: string, s: string, word: string, i: nat)
    requires a != "" && IsWord(word)
    requires !IsWordChar(a[|a| - 1]) || (s != "" && !IsWordChar(s[0]))
    ensures WordAt(a + s, word, |a| + i) <==> WordAt(s, word, i)
  {
    var t := a + s;
    if i + |word| <= |s| {
      assert t[|a| + i..|a| + i + |word|] == s[i..i + |word|];
      assert s[i..i + |word|] == word ==> s[i] == word[0];
      assert forall k :: 0 <= k < |s| ==> t[|a| + k] == s[k];
      assert 0 < i ==> t[|a| + i - 1] == s[i - 1];
    }
  }

  /** The matches inside a text that starts with a whole run. */
  lemma MatchesInRun(s: string, word: string, i: nat)
    requires IsWord(word) && s != "" && i < RunLength(s, WordChars)
    ensures WordAt(s, word, i) <==> i == 0 && word == s[..RunLength(s, WordChars)]
  {
    var n := RunLength(s, WordChars);
    if WordAt(s, word, i) {
      assert i == 0;
      assert s[|word| - 1] == word[|word| - 1];
      assert |word| == n;
    }
  }

  /** `verb` is found exactly when some whole word of the text is the verb. */
  lemma {:induction false} SearchIsRun(s: string, word: string)
    requires IsWord(word)
    ensures SearchWord(s, word, 0) <==> word in Runs(s, WordChars)
    decreases |s|
  {
    SearchFinds(s, word, 0);
    if s != "" {
      var m := FirstPiece(s);
      SearchIsRun(s[m..], word);
      SearchFinds(s[m..], word, 0);
      SplitSearch(s, word);
    }
  }

  function FirstPiece(s: string): nat {
    if RunLength(s, WordChars) == 0 then 1 else RunLength(s, WordChars)
  }

  /** Where a match of the whole text lies: it is the first run, or inside the rest. */
  lemma SplitMatch(s: string, word: string, k: nat)
    requires s != "" && IsWord(word) && k <= |s|
    ensures var m := FirstPiece(s);
      WordAt(s, word, k) <==>
        if k < m then k == 0 && RunLength(s, WordChars) > 0 && word == s[..m] else WordAt(s[m..], word, k - m)
  {
    var m := FirstPiece(s);
    if k >= m {
      ShiftPastPiece(s, word, k);
    } else if RunLength(s, WordChars) > 0 {
      MatchesInRun(s, word, k);
    } else if WordAt(s, word, k) {
      WordStarts(s, word, k);
    }
  }

  lemma WordStarts(s: string, word: string, k: nat)
    requires IsWord(word) && WordAt(s, word, k)
    ensures k < |s| && IsWordChar(s[k])
  {
    assert s[k..k + |word|][0] == s[k];
  }

  lemma PieceIsApart(s: string)
    requires s != ""
    ensures FirstPiece(s) <= |s|
    ensures !IsWordChar(s[FirstPiece(s) - 1]) || (FirstPiece(s) < |s| ==> !IsWordChar(s[FirstPiece(s)]))
  {
  }

  lemma ShiftPastPiece(s: string, word: string, k: nat)
    requires s != "" && IsWord(word) && FirstPiece(s) <= k <= |s|
    ensures WordAt(s, word, k) <==> WordAt(s[FirstPiece(s)..], word, k - FirstPiece(s))
  {
    var m := FirstPiece(s);
    PieceIsApart(s);
    if m < |s| {
      var a, rest := s[..m], s[m..];
      assert s == a + rest && a[|a| - 1] == s[m - 1] && rest[0] == s[m];
      ShiftWordAt(a, rest, word, k - m);
    }
  }

  lemma OccursFirstOrLater(s: string, word: string)
    requires s != "" && IsWord(word) && Occurs(s, word)
    ensures (RunLength(s, WordChars) > 0 && word == s[..FirstPiece(s)]) || Occurs(s[FirstPiece(s)..], word)
  {
    var k :| 0 <= k <= |s| && WordAt(s, word, k);
    SplitMatch(s, word, k);
    if k >= FirstPiece(s) {
      assert WordAt(s[FirstPiece(s)..], word, k - FirstPiece(s));
    }
  }

  lemma SplitSearch(s: string, word: string)
    requires s != "" && IsWord(word)
    ensures Occurs(s, word)
       <==> (RunLength(s, WordChars) > 0 && word == s[..FirstPiece(s)]) || Occurs(s[FirstPiece(s)..], word)
  {
    var m := FirstPiece(s);
    if Occurs(s, word) {
      OccursFirstOrLater(s, word);
    } else {
      SplitMatch(s, word, 0);
      if Occurs(s[m..], word) {
        var k :| 0 <= k <= |s| - m && WordAt(s[m..], word, k);
        SplitMatch(s, word, m + k);
      }
    }
  }

  lemma {:induction false} NoForbiddenIff(s: string, verbs: seq<string>)
    requires forall v :: v in verbs ==> IsWord(v)
    ensures FirstForbidden(s, verbs) == None <==> forall v :: v in verbs ==> v !in Runs(s, WordChars)
  {
    if verbs != [] {
      SearchIsRun(s, verbs[0]);
      NoForbiddenIff(s, verbs[1..]);
    }
  }

  predicate AreWords(words: seq<string>) {
    forall k :: 0 <= k < |words| ==> IsWord(words[k])
  }

  lemma EarlyVerbsAreWords()
    ensures AreWords(FORBIDDEN_VERBS[..10])
  {
  }

  lemma LateVerbsAreWords()
    ensures AreWords(FORBIDDEN_VERBS[10..])
  {
  }

  lemma VerbsAreWords()
    ensures forall v :: v in FORBIDDEN_VERBS ==> IsWord(v)
  {
    EarlyVerbsAreWords();
    LateVerbsAreWords();
    var early, late := FORBIDDEN_VERBS[..10], FORBIDDEN_VERBS[10..];
    assert FORBIDDEN_VERBS == early + late;
  }

  /** The longest run of letters at the start of the text is the word, in any case. */
  predicate StartsWith(t: string, word: string) {
    && |word| <= |t| && (forall k :: 0 <= k < |word| ==> 'a' <= Lower(t[k]) <= 'z' && Lower(t[k]) == word[k])
    && (|word| == |t| || !('a' <= Lower(t[|word|]) <= 'z'))
  }

  lemma LeadingIff(t: string, word: string)
    ensures LeadingWord(LowerAll(t)) == word <==> StartsWith(t, word)
  {
    var s := LowerAll(t);
    if StartsWith(t, word) {
      assert s == word + s[|word|..];
      RunLengthAppend(word, s[|word|..], Letters);
      FullRun(word, Letters);
    }
  }

  /** The text starts with a word that starts a read. */
  predicate StartsRead(t: string) {
    exists word :: word in ["select", "with", "show", "describe", "desc", "explain", "values", "table"]
                && StartsWith(t, word)
  }

  lemma LeadingIsRead(t: string)
    ensures LeadingWord(LowerAll(t)) in READ_LEADING <==> StartsRead(t)
  {
    forall word | word in READ_LEADING ensures LeadingWord(LowerAll(t)) == word <==> StartsWith(t, word) {
      LeadingIff(t, word);
    }
  }

  /** What writes, defines, grants, calls or changes the session. */
  predicate IsForbidden(word: string) {
    || word in ["insert", "update", "delete", "merge", "upsert", "create", "alter", "drop", "truncate", "rename"]
    || word in ["grant", "revoke", "deny", "call", "commit", "rollback", "reset", "use", "prepare", "deallocate"]
  }

  lemma ForbiddenAreListed(word: string)
    ensures word in FORBIDDEN_VERBS <==> IsForbidden(word)
  {
  }

  /** A statement that only reads: it starts so, and none of its words, taken whole, is forbidden. */
  predicate IsRead(t: string) {
    StartsRead(t) && forall w :: w in Runs(LowerAll(t), WordChars) ==> !IsForbidden(w)
  }

  lemma NothingForbiddenIff(s: string)
    ensures FirstForbidden(s, FORBIDDEN_VERBS) == None <==> forall w :: w in Runs(s, WordChars) ==> !IsForbidden(w)
  {
    VerbsAreWords();
    NoForbiddenIff(s, FORBIDDEN_VERBS);
    forall w ensures w in FORBIDDEN_VERBS <==> IsForbidden(w) {
      ForbiddenAreListed(w);
    }
  }

  lemma ReadOnlyIff(s: string)
    ensures ReadOnly(s) == Ok(s) <==> IsRead(s)
    ensures ReadOnly(s) == Err(NotARead) <==> !StartsRead(s)
    ensures ReadOnly(s).Ok? ==> ReadOnly(s) == Ok(s)
  {
    LeadingIsRead(s);
    NothingForbiddenIff(LowerAll(s));
  }

  lemma GuardUnfolds(sql: string)
    ensures SingleStatement(sql).Ok? ==> GuardRead(sql) == ReadOnly(SingleStatement(sql).value)
    ensures SingleStatement(sql).Err? ==> GuardRead(sql) == Err(SingleStatement(sql).error)
  {
  }

  /** The read door lets a text through exactly when it is one statement that only reads, and
      returns that statement; a statement that does not start as a read is refused for that. */
  lemma ReadDoorIff(sql: string, t: string)
    ensures GuardRead(sql) == Ok(t) <==> SingleStatement(sql) == Ok(t) && IsRead(t)
    ensures GuardRead(sql) == Err(NotARead) ==> SingleStatement(sql).Ok? && !StartsRead(SingleStatement(sql).value)
    ensures SingleStatement(sql).Ok? && !StartsRead(SingleStatement(sql).value) ==> GuardRead(sql) == Err(NotARead)
  {
    GuardUnfolds(sql);
    if SingleStatement(sql).Ok? {
      ReadOnlyIff(SingleStatement(sql).value);
    }
  }

  /** What the read door returns is trimmed, free of comments and semicolons, and the door
      returns it unchanged. */
  lemma ReadDoorIsIdempotent(sql: string)
    ensures var r := GuardRead(sql); r.Ok? ==> IsStatement(r.value) && GuardRead(r.value) == r
  {
    var r := SingleStatement(sql);
    if r.Ok? {
      var a, b := FoundIsEnclosed(sql);
      StatementIsFixed(r.value);
      ReadOnlyIff(r.value);
    }
  }
}
