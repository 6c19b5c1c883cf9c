/** The statements the write door accepts, written out, and the whole gate told by them
    (query-tool/execute_guard.py). */
module SqlForms {
  import opened Prelude
  import opened TextRuns
  import opened Identifiers
  import opened SqlStatement
  import opened SqlText
  import opened SqlPatterns
  import opened SqlGuard
  import opened SqlRoundTrip
  import opened SqlViews

  // ----------------------------------------------- the accepted statements

  /** The words and the target of the write, up to position `j`. */
  ghost predicate OpensTo(s: string, words: seq<string>, schema: string, table: string, j: nat) {
    exists i: nat :: Spells(s, 0, i, words) && Table(s, i, j, schema, table)
  }

  ghost predicate OpensWrite(s: string, words: seq<string>, w: ParsedWrite, j: nat) {
    w.table.Some? && OpensTo(s, words, w.schema, w.table.value, j)
  }

  ghost predicate CreatesSchema(s: string, w: ParsedWrite) {
    && w.table == None
    && exists i: nat :: Spells(s, 0, i, ["create", "schema", "if", "not", "exists"]) && Schema(s, i, |s|, w.schema)
  }

  ghost predicate CreatesTable(s: string, w: ParsedWrite, words: seq<string>) {
    exists j: nat :: OpensWrite(s, words, w, j) && AsSelect(s, j)
  }

  ghost predicate CreatesView(s: string, w: ParsedWrite) {
    exists v: View :: OpensWrite(s, ["create", "or", "replace", "view"], w, v.start) && IsView(s, v)
  }

  ghost predicate InsertsRows(s: string, w: ParsedWrite) {
    exists i: nat, j: nat :: OpensWrite(s, ["insert", "into"], w, i) && Blank(s, i, j) && Select(s, j)
  }

  ghost predicate Merges(s: string, w: ParsedWrite) {
    exists j: nat :: OpensWrite(s, ["merge", "into"], w, j) && IsMerge(s, j)
  }

  ghost predicate DeletesBatch(s: string, w: ParsedWrite) {
    exists b: Batch :: OpensWrite(s, ["delete", "from"], w, b.start) && IsBatch(s, b)
  }

  ghost predicate Expires(s: string, w: ParsedWrite) {
    exists j: nat :: OpensWrite(s, ["alter", "table"], w, j) && IsExpire(s, j)
  }

  ghost predicate Optimizes(s: string, w: ParsedWrite) {
    exists j: nat :: OpensWrite(s, ["alter", "table"], w, j) && IsOptimize(s, j)
  }

  /** The text is a statement of the kind, with this schema and table as its target. */
  ghost predicate IsWrite(s: string, w: ParsedWrite) {
    match w.kind
    case KCreateSchema => CreatesSchema(s, w)
    case KCtas =>
      || CreatesTable(s, w, ["create", "or", "replace", "table"])
      || CreatesTable(s, w, ["create", "table", "if", "not", "exists"])
    case KDropTable => OpensWrite(s, ["drop", "table", "if", "exists"], w, |s|)
    case KCreateView => CreatesView(s, w)
    case KDropView => OpensWrite(s, ["drop", "view", "if", "exists"], w, |s|)
    case KInsertSelect => InsertsRows(s, w)
    case KMerge => Merges(s, w)
    case KDeleteBatch => DeletesBatch(s, w)
    case KExpireSnapshots => Expires(s, w)
    case KOptimize => Optimizes(s, w)
  }

  // ------------------------------------------------- patterns, step by step

  lemma Piece(a: Atom, t: Pattern, s: string, i: nat) returns (j: nat)
    requires i <= |s| && !a.Capture? && Matches(Then(a, t), s, i, [])
    ensures i <= j <= |s| && Stands(a, s, i, j) && Matches(t, s, j, [])
  {
    j := PieceEnd(Then(a, t), s, i, []);
  }

  lemma Pieced(a: Atom, t: Pattern, s: string, i: nat, j: nat)
    requires i <= j <= |s| && !a.Capture? && Stands(a, s, i, j) && Matches(t, s, j, [])
    ensures Matches(Then(a, t), s, i, [])
  {
    var none: seq<string> := [];
    PieceMatches(a, t, s, i, j, none);
    assert none + none == none;
  }

  lemma SaysPiece(word: string, t: Pattern, s: string, i: nat) returns (j: nat)
    requires i <= |s| && Matches(Then(Lit(word), t), s, i, [])
    ensures j == i + |word| <= |s| && Says(s, i, j, word) && Matches(t, s, j, [])
  {
    j := Piece(Lit(word), t, s, i);
  }

  lemma SaysPieced(word: string, t: Pattern, s: string, i: nat, j: nat)
    requires Says(s, i, j, word) && Matches(t, s, j, [])
    ensures Matches(Then(Lit(word), t), s, i, [])
  {
    Pieced(Lit(word), t, s, i, j);
  }

  lemma GapPiece(t: Pattern, s: string, i: nat) returns (j: nat)
    requires i <= |s| && Matches(Gap(t), s, i, [])
    ensures Blank(s, i, j) && Matches(t, s, j, [])
  {
    j := Piece(Many(Space, 1), t, s, i);
  }

  lemma GapPieced(t: Pattern, s: string, i: nat, j: nat)
    requires Blank(s, i, j) && Matches(t, s, j, [])
    ensures Matches(Gap(t), s, i, [])
  {
    Pieced(Many(Space, 1), t, s, i, j);
  }

  lemma BlanksPiece(t: Pattern, s: string, i: nat) returns (j: nat)
    requires i <= |s| && Matches(Then(Many(Space, 0), t), s, i, [])
    ensures Blanks(s, i, j) && Matches(t, s, j, [])
  {
    j := Piece(Many(Space, 0), t, s, i);
  }

  lemma BlanksPieced(t: Pattern, s: string, i: nat, j: nat)
    requires Blanks(s, i, j) && Matches(t, s, j, [])
    ensures Matches(Then(Many(Space, 0), t), s, i, [])
  {
    Pieced(Many(Space, 0), t, s, i, j);
  }

  /** A word and white space behind it. */
  lemma WordPiece(word: string, t: Pattern, s: string, i: nat) returns (j: nat)
    requires i <= |s| && Matches(W(word, t), s, i, [])
    ensures Lead(s, i, j, word) && Matches(t, s, j, [])
  {
    var k := SaysPiece(word, Gap(t), s, i);
    j := GapPiece(t, s, k);
  }

  lemma WordPieced(word: string, t: Pattern, s: string, i: nat, j: nat)
    requires Lead(s, i, j, word) && Matches(t, s, j, [])
    ensures Matches(W(word, t), s, i, [])
  {
    GapPieced(t, s, i + |word|, j);
    SaysPieced(word, Gap(t), s, i, i + |word|);
  }

  /** A sign with optional white space around it: where it stands and where its rest starts. */
  lemma SignPiece(sign: string, t: Pattern, s: string, i: nat) returns (a: nat, b: nat)
    requires i <= |s| && Matches(Sign(sign, t), s, i, [])
    ensures Blanks(s, i, a) && Says(s, a, a + |sign|, sign) && Blanks(s, a + |sign|, b) && Matches(t, s, b, [])
  {
    a := BlanksPiece(Then(Lit(sign), Then(Many(Space, 0), t)), s, i);
    var c := SaysPiece(sign, Then(Many(Space, 0), t), s, a);
    b := BlanksPiece(t, s, c);
  }

  lemma SignPieced(sign: string, t: Pattern, s: string, i: nat, a: nat, b: nat)
    requires Blanks(s, i, a) && Says(s, a, a + |sign|, sign) && Blanks(s, a + |sign|, b) && Matches(t, s, b, [])
    ensures Matches(Sign(sign, t), s, i, [])
  {
    BlanksPieced(t, s, a + |sign|, b);
    SaysPieced(sign, Then(Many(Space, 0), t), s, a, a + |sign|);
    BlanksPieced(Then(Lit(sign), Then(Many(Space, 0), t)), s, i, a);
  }

  // ------------------------------------------------------------ the tails

  lemma SelectIff(s: string, i: nat)
    requires i <= |s|
    ensures Matches(SELECT_TAIL, s, i, []) <==> Select(s, i)
  {
    var rest := Then(Edge, AnyText(Done));
    if Matches(SELECT_TAIL, s, i, []) {
      var j := SaysPiece("select", rest, s, i);
      var k := Piece(Edge, AnyText(Done), s, j);
      assert Lower(s[i + 5]) == "select"[5];
    }
    if Select(s, i) {
      assert Lower(s[i + 5]) == "select"[5];
      AnyMatches(s, i + 6);
      Pieced(Edge, AnyText(Done), s, i + 6, i + 6);
      SaysPieced("select", rest, s, i, i + 6);
    }
  }

  lemma AsSelectIff(s: string, i: nat)
    requires i <= |s|
    ensures Matches(Gap(W("as", SELECT_TAIL)), s, i, []) <==> AsSelect(s, i)
  {
    if Matches(Gap(W("as", SELECT_TAIL)), s, i, []) {
      var a := GapPiece(W("as", SELECT_TAIL), s, i);
      var b := WordPiece("as", SELECT_TAIL, s, a);
      SelectIff(s, b);
    }
    if AsSelect(s, i) {
      var a: nat, b: nat :| Blank(s, i, a) && Lead(s, a, b, "as") && Select(s, b);
      SelectIff(s, b);
      WordPieced("as", SELECT_TAIL, s, a, b);
      GapPieced(W("as", SELECT_TAIL), s, i, a);
    }
  }

  lemma InsertIff(s: string, i: nat)
    requires i <= |s|
    ensures Matches(Gap(SELECT_TAIL), s, i, []) <==> exists j: nat :: Blank(s, i, j) && Select(s, j)
  {
    if Matches(Gap(SELECT_TAIL), s, i, []) {
      var a := GapPiece(SELECT_TAIL, s, i);
      SelectIff(s, a);
    }
    if a: nat :| Blank(s, i, a) && Select(s, a) {
      SelectIff(s, a);
      GapPieced(SELECT_TAIL, s, i, a);
    }
  }

  // -- the batch predicate

  const QUOTE_END: Pattern := Then(Lit("'"), Done)
  const BATCH_LITERAL: Pattern := Then(Lit("'"), Then(Many(BatchChar, 1), QUOTE_END))

  lemma BatchChars(s: string, i: nat, j: nat)
    requires i <= j <= |s|
    ensures Stands(Many(BatchChar, 1), s, i, j) <==> i < j && forall k :: i <= k < j ==> IsBatchIdChar(s[k])
  {
    assert "_.:-" == ['_', '.', ':', '-'];
  }

  predicate IsBatchLiteral(s: string, i: nat) {
    && i + 1 < |s| - 1 && s[i] == '\'' && s[|s| - 1] == '\''
    && forall k :: i < k < |s| - 1 ==> IsBatchIdChar(s[k])
  }

  lemma QuoteEndIff(s: string, i: nat)
    requires i <= |s|
    ensures Matches(QUOTE_END, s, i, []) <==> i == |s| - 1 && s[i] == '\''
  {
    if Matches(QUOTE_END, s, i, []) {
      var j := QuotePiece(Done, s, i);
    }
    if i == |s| - 1 && s[i] == '\'' {
      QuotePieced(Done, s, i);
    }
  }

  lemma QuotePiece(t: Pattern, s: string, i: nat) returns (j: nat)
    requires i <= |s| && Matches(Then(Lit("'"), t), s, i, [])
    ensures i < |s| && s[i] == '\'' && j == i + 1 && Matches(t, s, j, [])
  {
    j := SaysPiece("'", t, s, i);
    assert Lower(s[i + 0]) == "'"[0];
  }

  lemma QuotePieced(t: Pattern, s: string, i: nat)
    requires i < |s| && s[i] == '\'' && Matches(t, s, i + 1, [])
    ensures Matches(Then(Lit("'"), t), s, i, [])
  {
    SaysPieced("'", t, s, i, i + 1);
  }

  lemma BatchLiteralIff(s: string, i: nat)
    requires i <= |s|
    ensures Matches(BATCH_LITERAL, s, i, []) <==> IsBatchLiteral(s, i)
  {
    var run := Then(Many(BatchChar, 1), QUOTE_END);
    if Matches(BATCH_LITERAL, s, i, []) {
      var j := QuotePiece(run, s, i);
      var k := Piece(Many(BatchChar, 1), QUOTE_END, s, j);
      QuoteEndIff(s, k);
      BatchChars(s, j, k);
    }
    if IsBatchLiteral(s, i) {
      QuoteEndIff(s, |s| - 1);
      BatchChars(s, i + 1, |s| - 1);
      Pieced(Many(BatchChar, 1), QUOTE_END, s, i + 1, |s| - 1);
      QuotePieced(run, s, i);
    }
  }

  const BATCH_COLUMN: Pattern := Then(Lit("_batch_id"), Sign("=", BATCH_LITERAL))

  lemma BatchReads(s: string, i: nat) returns (b: Batch)
    requires i <= |s| && Matches(Gap(W("where", BATCH_COLUMN)), s, i, [])
    ensures IsBatch(s, b) && b.start == i
  {
    var whereAt := GapPiece(W("where", BATCH_COLUMN), s, i);
    var whereEnd := SaysPiece("where", Gap(BATCH_COLUMN), s, whereAt);
    var columnAt := GapPiece(BATCH_COLUMN, s, whereEnd);
    var columnEnd := SaysPiece("_batch_id", Sign("=", BATCH_LITERAL), s, columnAt);
    var equalsAt, quoteAt := SignPiece("=", BATCH_LITERAL, s, columnEnd);
    assert Lower(s[equalsAt + 0]) == "="[0];
    BatchLiteralIff(s, quoteAt);
    b := Batch(i, whereAt, columnAt, equalsAt, quoteAt);
  }

  /** A sign of one character. */
  lemma MarkPieced(sign: string, t: Pattern, s: string, i: nat, a: nat, b: nat)
    requires |sign| == 1 && Lower(sign[0]) == sign[0]
    requires Blanks(s, i, a) && a < |s| && s[a] == sign[0] && Blanks(s, a + 1, b) && Matches(t, s, b, [])
    ensures Matches(Sign(sign, t), s, i, [])
  {
    SignPieced(sign, t, s, i, a, b);
  }

  /** A word, and a sign behind it with optional white space. */
  lemma SignedPieced(word: string, sign: string, t: Pattern, s: string, i: nat, a: nat, b: nat)
    requires Says(s, i, i + |word|, word) && Blanks(s, i + |word|, a) && Says(s, a, a + |sign|, sign)
    requires Blanks(s, a + |sign|, b) && Matches(t, s, b, [])
    ensures Matches(Then(Lit(word), Sign(sign, t)), s, i, [])
  {
    SignPieced(sign, t, s, i + |word|, a, b);
    SaysPieced(word, Sign(sign, t), s, i, i + |word|);
  }

  lemma ColumnPieced(s: string, i: nat, equalsAt: nat, quoteAt: nat)
    requires Says(s, i, i + 9, "_batch_id") && Blanks(s, i + 9, equalsAt) && Says(s, equalsAt, equalsAt + 1, "=")
    requires Blanks(s, equalsAt + 1, quoteAt) && Matches(BATCH_LITERAL, s, quoteAt, [])
    ensures Matches(BATCH_COLUMN, s, i, [])
  {
    SignedPieced("_batch_id", "=", BATCH_LITERAL, s, i, equalsAt, quoteAt);
  }

  lemma WherePieced(t: Pattern, s: string, i: nat, j: nat, k: nat)
    requires Blank(s, i, j) && Says(s, j, j + 5, "where") && Blank(s, j + 5, k) && Matches(t, s, k, [])
    ensures Matches(Gap(W("where", t)), s, i, [])
  {
    GapPieced(t, s, j + 5, k);
    SaysPieced("where", Gap(t), s, j, j + 5);
    GapPieced(W("where", t), s, i, j);
  }

  lemma BatchIsRead(s: string, b: Batch)
    requires IsBatch(s, b)
    ensures b.start <= |s| && Matches(Gap(W("where", BATCH_COLUMN)), s, b.start, [])
  {
    BatchLiteralIff(s, b.quoteAt);
    ColumnPieced(s, b.columnAt, b.equalsAt, b.quoteAt);
    WherePieced(BATCH_COLUMN, s, b.start, b.whereAt, b.columnAt);
  }

  /** The tail of a batch delete is exactly the readable form. */
  lemma BatchTailIff(s: string, i: nat)
    requires i <= |s|
    ensures Matches(Gap(BATCH_TAIL), s, i, []) <==> exists b: Batch :: b.start == i && IsBatch(s, b)
  {
    assert BATCH_TAIL == W("where", BATCH_COLUMN);
    if Matches(Gap(BATCH_TAIL), s, i, []) {
      var b := BatchReads(s, i);
    }
    if b: Batch :| b.start == i && IsBatch(s, b) {
      BatchIsRead(s, b);
    }
  }

  // -- merge

  lemma NamePiece(t: Pattern, s: string, i: nat) returns (j: nat)
    requires i <= |s| && Matches(Then(Ident, t), s, i, [])
    ensures Name(s, i, j) && Matches(t, s, j, [])
  {
    j := Piece(Ident, t, s, i);
    NameStands(s, i, j);
  }

  lemma NamePieced(t: Pattern, s: string, i: nat, j: nat)
    requires Name(s, i, j) && Matches(t, s, j, [])
    ensures Matches(Then(Ident, t), s, i, [])
  {
    NameStands(s, i, j);
    Pieced(Ident, t, s, i, j);
  }

  const WHEN_CLAUSE: Pattern := Clause("when", Done)
  const ON_CLAUSE: Pattern := Clause("on", WHEN_CLAUSE)
  const USING_TAIL: Pattern := Gap(W("using", AnyText(ON_CLAUSE)))

  lemma ClausePiece(word: string, t: Pattern, s: string, i: nat) returns (j: nat)
    requires i <= |s| && Matches(Clause(word, t), s, i, []) && word != ""
    requires IsWord(word)
    ensures i + |word| <= j <= |s| && Word(s, i, word) && Matches(t, s, j, [])
  {
    var a := Piece(Edge, Then(Lit(word), Then(Edge, AnyText(t))), s, i);
    var b := SaysPiece(word, Then(Edge, AnyText(t)), s, a);
    var c := Piece(Edge, AnyText(t), s, b);
    j := Piece(Many(Any, 0), t, s, c);
    EdgesAreWord(s, i, word);
  }

  lemma LetterBack(c: char, d: char)
    requires Lower(c) == d && IsWordChar(d)
    ensures IsWordChar(c)
  {
  }

  /** A word between boundaries stands alone. */
  lemma EdgesAreWord(s: string, i: nat, word: string)
    requires Says(s, i, i + |word|, word) && IsWord(word)
    ensures AtBoundary(s, i) && AtBoundary(s, i + |word|) <==> Word(s, i, word)
  {
    var n := |word|;
    LetterBack(s[i + 0], word[0]);
    LetterBack(s[i + (n - 1)], word[n - 1]);
  }

  lemma ClausePieced(word: string, t: Pattern, s: string, i: nat, j: nat)
    requires IsWord(word) && i + |word| <= j <= |s| && Word(s, i, word) && Matches(t, s, j, [])
    ensures Matches(Clause(word, t), s, i, [])
  {
    EdgesAreWord(s, i, word);
    Pieced(Many(Any, 0), t, s, i + |word|, j);
    Pieced(Edge, AnyText(t), s, i + |word|, i + |word|);
    SaysPieced(word, Then(Edge, AnyText(t)), s, i, i + |word|);
    Pieced(Edge, Then(Lit(word), Then(Edge, AnyText(t))), s, i, i);
  }

  lemma ClausesAreWords()
    ensures IsWord("on") && IsWord("when")
  {
  }

  lemma OnWhenPiece(s: string, i: nat) returns (on: nat, when: nat)
    requires i <= |s| && Matches(AnyText(ON_CLAUSE), s, i, [])
    ensures i <= on && Word(s, on, "on") && on + 2 <= when && Word(s, when, "when")
  {
    ClausesAreWords();
    on := Piece(Many(Any, 0), ON_CLAUSE, s, i);
    when := ClausePiece("on", WHEN_CLAUSE, s, on);
    var end := ClausePiece("when", Done, s, when);
  }

  lemma OnWhenPieced(s: string, i: nat, on: nat, when: nat)
    requires i <= on && Word(s, on, "on") && on + 2 <= when && Word(s, when, "when")
    ensures Matches(AnyText(ON_CLAUSE), s, i, [])
  {
    ClausesAreWords();
    ClausePieced("when", Done, s, when, |s|);
    ClausePieced("on", WHEN_CLAUSE, s, on, when);
    Pieced(Many(Any, 0), ON_CLAUSE, s, i, on);
  }

  lemma UsingIff(s: string, i: nat)
    requires i <= |s|
    ensures Matches(USING_TAIL, s, i, []) <==> Using(s, i)
  {
    var t := AnyText(ON_CLAUSE);
    if Matches(USING_TAIL, s, i, []) {
      var a := GapPiece(W("using", t), s, i);
      var b := WordPiece("using", t, s, a);
      var on, when := OnWhenPiece(s, b);
    }
    if Using(s, i) {
      var a: nat, b: nat, on: nat, when: nat :|
        && Blank(s, i, a) && Lead(s, a, b, "using")
        && b <= on && Word(s, on, "on") && on + 2 <= when && Word(s, when, "when");
      OnWhenPieced(s, b, on, when);
      WordPieced("using", t, s, a, b);
      GapPieced(W("using", t), s, i, a);
    }
  }

  /** The three ways in which the target may be named. */
  lemma MergeUnfolds(s: string, i: nat)
    requires i <= |s|
    ensures Matches(MERGE_TAIL, s, i, [])
       <==> || Matches(USING_TAIL, s, i, []) || Matches(Gap(Then(Ident, USING_TAIL)), s, i, [])
            || Matches(Gap(W("as", Then(Ident, USING_TAIL))), s, i, [])
  {
    var named := Then(Ident, Done);
    var both := Then(Ident, USING_TAIL);
    assert MERGE_TAIL == Maybe(MERGE_ALIAS, USING_TAIL);
    assert Append(named, USING_TAIL) == both;
    assert Append(MERGE_ALIAS, USING_TAIL) == Gap(Maybe(W("as", Done), both));
    assert Append(W("as", Done), both) == W("as", both);
    MaybeAfterGap(W("as", Done), both, s, i);
  }

  lemma MaybeAfterGap(m: Pattern, t: Pattern, s: string, i: nat)
    requires i <= |s|
    ensures Matches(Gap(Maybe(m, t)), s, i, [])
       <==> Matches(Gap(t), s, i, []) || Matches(Gap(Append(m, t)), s, i, [])
  {
    if Matches(Gap(Maybe(m, t)), s, i, []) {
      var j := GapPiece(Maybe(m, t), s, i);
      if Matches(t, s, j, []) {
        GapPieced(t, s, i, j);
      } else {
        GapPieced(Append(m, t), s, i, j);
      }
    }
    if Matches(Gap(t), s, i, []) {
      var j := GapPiece(t, s, i);
      GapPieced(Maybe(m, t), s, i, j);
    }
    if Matches(Gap(Append(m, t)), s, i, []) {
      var j := GapPiece(Append(m, t), s, i);
      GapPieced(Maybe(m, t), s, i, j);
    }
  }

  lemma PlainAliasIff(s: string, i: nat)
    requires i <= |s|
    ensures Matches(Gap(Then(Ident, USING_TAIL)), s, i, [])
       <==> exists a: nat, j: nat :: Blank(s, i, a) && Name(s, a, j) && Using(s, j)
  {
    var t := Then(Ident, USING_TAIL);
    if Matches(Gap(t), s, i, []) {
      var a := GapPiece(t, s, i);
      var j := NamePiece(USING_TAIL, s, a);
      UsingIff(s, j);
    }
    if a: nat, j: nat :| Blank(s, i, a) && Name(s, a, j) && Using(s, j) {
      UsingIff(s, j);
      NamePieced(USING_TAIL, s, a, j);
      GapPieced(t, s, i, a);
    }
  }

  lemma AsAliasIff(s: string, i: nat)
    requires i <= |s|
    ensures Matches(Gap(W("as", Then(Ident, USING_TAIL))), s, i, [])
       <==> exists a: nat, b: nat, j: nat :: Blank(s, i, a) && Lead(s, a, b, "as") && Name(s, b, j) && Using(s, j)
  {
    var t := Then(Ident, USING_TAIL);
    if Matches(Gap(W("as", t)), s, i, []) {
      var a := GapPiece(W("as", t), s, i);
      var b := WordPiece("as", t, s, a);
      var j := NamePiece(USING_TAIL, s, b);
      UsingIff(s, j);
    }
    if a: nat, b: nat, j: nat :| Blank(s, i, a) && Lead(s, a, b, "as") && Name(s, b, j) && Using(s, j) {
      UsingIff(s, j);
      NamePieced(USING_TAIL, s, b, j);
      WordPieced("as", t, s, a, b);
      GapPieced(W("as", t), s, i, a);
    }
  }

  lemma MergeTailIff(s: string, i: nat)
    requires i <= |s|
    ensures Matches(MERGE_TAIL, s, i, []) <==> IsMerge(s, i)
  {
    MergeUnfolds(s, i);
    UsingIff(s, i);
    PlainAliasIff(s, i);
    AsAliasIff(s, i);
  }

  // -- thresholds

  function UnitsOf(setting: Setting): Class {
    if setting.Retention? then DayOrHour else Letter
  }

  function MaxUnit(setting: Setting): nat {
    if setting.Retention? then 1 else 3
  }

  lemma UnitStands(s: string, i: nat, j: nat, setting: Setting)
    requires i <= j < |s|
    ensures Stands(Span(UnitsOf(setting), 1, MaxUnit(setting)), s, i, j) <==> Unit(s, i, j, setting)
  {
  }

  const CLOSE: Pattern := Then(Many(Space, 0), Then(Lit(")"), Done))

  lemma CloseIff(s: string, i: nat)
    requires i <= |s|
    ensures Matches(CLOSE, s, i, []) <==> |s| > 0 && s[|s| - 1] == ')' && Blanks(s, i, |s| - 1)
  {
    if Matches(CLOSE, s, i, []) {
      var j := BlanksPiece(Then(Lit(")"), Done), s, i);
      var k := SaysPiece(")", Done, s, j);
      assert Lower(s[j + 0]) == ")"[0];
    }
    if |s| > 0 && s[|s| - 1] == ')' && Blanks(s, i, |s| - 1) {
      SaysPieced(")", Done, s, |s| - 1, |s|);
      BlanksPieced(Then(Lit(")"), Done), s, i, |s| - 1);
    }
  }

  lemma AmountReads(s: string, i: nat, setting: Setting) returns (unitAt: nat, unitEnd: nat)
    requires i <= |s| && Matches(Amount(UnitsOf(setting), MaxUnit(setting)), s, i, [])
    ensures Quantity(s, i, unitAt, unitEnd, setting)
  {
    var units := Span(UnitsOf(setting), 1, MaxUnit(setting));
    var quoted := Then(Lit("'"), CLOSE);
    var j := QuotePiece(Then(Many(Digit, 1), Then(units, quoted)), s, i);
    unitAt := Piece(Many(Digit, 1), Then(units, quoted), s, j);
    unitEnd := Piece(units, quoted, s, unitAt);
    var k := QuotePiece(CLOSE, s, unitEnd);
    UnitStands(s, unitAt, unitEnd, setting);
    CloseIff(s, k);
  }

  function QuotedUnit(setting: Setting): Pattern {
    Then(Span(UnitsOf(setting), 1, MaxUnit(setting)), Then(Lit("'"), CLOSE))
  }

  lemma UnitPieced(s: string, i: nat, j: nat, setting: Setting)
    requires Unit(s, i, j, setting) && s[j] == '\'' && s[|s| - 1] == ')' && Blanks(s, j + 1, |s| - 1)
    ensures Matches(QuotedUnit(setting), s, i, [])
  {
    CloseIff(s, j + 1);
    QuotePieced(CLOSE, s, j);
    UnitStands(s, i, j, setting);
    Pieced(Span(UnitsOf(setting), 1, MaxUnit(setting)), Then(Lit("'"), CLOSE), s, i, j);
  }

  lemma DigitsPieced(t: Pattern, s: string, i: nat, j: nat)
    requires i < |s| && s[i] == '\'' && i + 1 < j <= |s| && (forall k :: i < k < j ==> '0' <= s[k] <= '9')
    requires Matches(t, s, j, [])
    ensures Matches(Then(Lit("'"), Then(Many(Digit, 1), t)), s, i, [])
  {
    Pieced(Many(Digit, 1), t, s, i + 1, j);
    QuotePieced(Then(Many(Digit, 1), t), s, i);
  }

  lemma AmountIsRead(s: string, i: nat, unitAt: nat, unitEnd: nat, setting: Setting)
    requires Quantity(s, i, unitAt, unitEnd, setting)
    ensures Matches(Amount(UnitsOf(setting), MaxUnit(setting)), s, i, [])
  {
    UnitPieced(s, unitAt, unitEnd, setting);
    DigitsPieced(QuotedUnit(setting), s, i, unitAt);
  }

  function BoundOf(setting: Setting): Pattern {
    Threshold(SettingName(setting), UnitsOf(setting), MaxUnit(setting))
  }

  function InsideOf(setting: Setting): Pattern {
    Then(Lit(SettingName(setting)), Sign("=>", Amount(UnitsOf(setting), MaxUnit(setting))))
  }

  lemma InsideReads(s: string, i: nat, setting: Setting) returns (arrowAt: nat, quoteAt: nat, unitAt: nat, unitEnd: nat)
    requires i <= |s| && Matches(InsideOf(setting), s, i, [])
    ensures Assigns(s, i, arrowAt, quoteAt, unitAt, unitEnd, setting)
  {
    var amount := Amount(UnitsOf(setting), MaxUnit(setting));
    var nameEnd := SaysPiece(SettingName(setting), Sign("=>", amount), s, i);
    arrowAt, quoteAt := SignPiece("=>", amount, s, nameEnd);
    unitAt, unitEnd := AmountReads(s, quoteAt, setting);
  }

  lemma InsideIsRead(s: string, i: nat, arrowAt: nat, quoteAt: nat, unitAt: nat, unitEnd: nat, setting: Setting)
    requires Assigns(s, i, arrowAt, quoteAt, unitAt, unitEnd, setting)
    ensures Matches(InsideOf(setting), s, i, [])
  {
    var amount := Amount(UnitsOf(setting), MaxUnit(setting));
    AmountIsRead(s, quoteAt, unitAt, unitEnd, setting);
    SignedPieced(SettingName(setting), "=>", amount, s, i, arrowAt, quoteAt);
  }

  lemma BoundReads(s: string, i: nat, setting: Setting) returns (b: Bound)
    requires i <= |s| && Matches(BoundOf(setting), s, i, [])
    ensures IsBound(s, b, setting) && b.start == i
  {
    var openAt, nameAt := SignPiece("(", InsideOf(setting), s, i);
    assert Lower(s[openAt + 0]) == "("[0];
    var arrowAt, quoteAt, unitAt, unitEnd := InsideReads(s, nameAt, setting);
    b := Bound(i, openAt, nameAt, arrowAt, quoteAt, unitAt, unitEnd);
  }

  lemma BoundIsRead(s: string, b: Bound, setting: Setting)
    requires IsBound(s, b, setting)
    ensures b.start <= |s| && Matches(BoundOf(setting), s, b.start, [])
  {
    InsideIsRead(s, b.nameAt, b.arrowAt, b.quoteAt, b.unitAt, b.unitEnd, setting);
    MarkPieced("(", InsideOf(setting), s, b.start, b.openAt, b.nameAt);
  }

  lemma BoundIff(s: string, i: nat, setting: Setting)
    requires i <= |s|
    ensures Matches(BoundOf(setting), s, i, []) <==> HasBound(s, i, setting)
  {
    if Matches(BoundOf(setting), s, i, []) {
      var b := BoundReads(s, i, setting);
    }
    if HasBound(s, i, setting) {
      var b: Bound :| b.start == i && IsBound(s, b, setting);
      BoundIsRead(s, b, setting);
    }
  }

  lemma ExecutesPiece(procedure: string, t: Pattern, s: string, i: nat) returns (j: nat)
    requires i <= |s| && Matches(Gap(W("execute", Then(Lit(procedure), t))), s, i, [])
    ensures Executes(s, i, j, procedure) && j <= |s| && Matches(t, s, j, [])
  {
    var a := GapPiece(W("execute", Then(Lit(procedure), t)), s, i);
    var b := WordPiece("execute", Then(Lit(procedure), t), s, a);
    j := SaysPiece(procedure, t, s, b);
  }

  lemma ExecutesPieced(procedure: string, t: Pattern, s: string, i: nat, j: nat)
    requires Executes(s, i, j, procedure) && j <= |s| && Matches(t, s, j, [])
    ensures Matches(Gap(W("execute", Then(Lit(procedure), t))), s, i, [])
  {
    var a: nat, b: nat :| Blank(s, i, a) && Lead(s, a, b, "execute") && Says(s, b, j, procedure);
    SaysPieced(procedure, t, s, b, j);
    WordPieced("execute", Then(Lit(procedure), t), s, a, b);
    GapPieced(W("execute", Then(Lit(procedure), t)), s, i, a);
  }

  lemma ExpireTailIff(s: string, i: nat)
    requires i <= |s|
    ensures Matches(Gap(EXPIRE_TAIL), s, i, []) <==> IsExpire(s, i)
  {
    if Matches(Gap(EXPIRE_TAIL), s, i, []) {
      var j := ExecutesPiece("expire_snapshots", BoundOf(Retention), s, i);
      BoundIff(s, j, Retention);
    }
    if IsExpire(s, i) {
      var j: nat :| Executes(s, i, j, "expire_snapshots") && HasBound(s, j, Retention);
      BoundIff(s, j, Retention);
      ExecutesPieced("expire_snapshots", BoundOf(Retention), s, i, j);
    }
  }

  lemma {:induction false} AppendDone(p: Pattern)
    ensures Append(p, Done) == p
  {
    match p
    case Done =>
    case Then(_, t) => AppendDone(t);
    case Maybe(_, t) => AppendDone(t);
  }

  lemma OptimizeTailIff(s: string, i: nat)
    requires i <= |s|
    ensures Matches(Gap(OPTIMIZE_TAIL), s, i, []) <==> IsOptimize(s, i)
  {
    var t := Maybe(BoundOf(FileSize), Done);
    AppendDone(BoundOf(FileSize));
    if Matches(Gap(OPTIMIZE_TAIL), s, i, []) {
      var j := ExecutesPiece("optimize", t, s, i);
      BoundIff(s, j, FileSize);
    }
    if IsOptimize(s, i) {
      var j: nat :| Executes(s, i, j, "optimize") && (j == |s| || HasBound(s, j, FileSize));
      BoundIff(s, j, FileSize);
      ExecutesPieced("optimize", t, s, i, j);
    }
  }

  // ---------------------------------------------------------- the openings

  lemma SpeltGrows(s: string, i: nat, at: seq<nat>, words: seq<string>)
    requires words != [] && Spelt(s, at, words[1..]) && Lead(s, i, at[0], words[0])
    ensures Spelt(s, [i] + at, words)
  {
    var all := [i] + at;
    forall k | 0 <= k < |words| ensures Lead(s, all[k], all[k + 1], words[k]) {
      assert k > 0 ==> words[k] == words[1..][k - 1] && all[k] == at[k - 1];
    }
  }

  lemma SpeltShrinks(s: string, at: seq<nat>, words: seq<string>)
    requires words != [] && Spelt(s, at, words)
    ensures Spelt(s, at[1..], words[1..])
  {
    forall k | 0 <= k < |words| - 1 ensures Lead(s, at[1..][k], at[1..][k + 1], words[1..][k]) {
      assert Lead(s, at[k + 1], at[k + 2], words[k + 1]);
    }
  }

  lemma {:induction false} HeaderReads(words: seq<string>, t: Pattern, s: string, i: nat, caps: seq<string>)
    returns (at: seq<nat>)
    requires i <= |s| && Matches(Header(words, t), s, i, caps)
    ensures Spelt(s, at, words) && at[0] == i && at[|words|] <= |s| && Matches(t, s, at[|words|], caps)
  {
    if words == [] {
      at := [i];
    } else {
      var rest := Header(words[1..], t);
      var k := PieceEnd(W(words[0], rest), s, i, caps);
      var l := PieceEnd(Gap(rest), s, k, caps);
      var more := HeaderReads(words[1..], t, s, l, caps);
      SpeltGrows(s, i, more, words);
      at := [i] + more;
    }
  }

  lemma CapsPieced(a: Atom, t: Pattern, s: string, i: nat, j: nat, caps: seq<string>)
    requires i <= j <= |s| && !a.Capture? && Stands(a, s, i, j) && Matches(t, s, j, caps)
    ensures Matches(Then(a, t), s, i, caps)
  {
    PieceMatches(a, t, s, i, j, caps);
    assert [] + caps == caps;
  }

  lemma {:induction false} HeaderIsRead(words: seq<string>, t: Pattern, s: string, at: seq<nat>, caps: seq<string>)
    requires Spelt(s, at, words) && at[|words|] <= |s| && Matches(t, s, at[|words|], caps)
    ensures at[0] <= |s| && Matches(Header(words, t), s, at[0], caps)
    decreases |words|
  {
    if words != [] {
      assert Lead(s, at[0], at[1], words[0]);
      var rest, n := Header(words[1..], t), at[0] + |words[0]|;
      SpeltShrinks(s, at, words);
      HeaderIsRead(words[1..], t, s, at[1..], caps);
      CapsPieced(Many(Space, 1), rest, s, n, at[1], caps);
      CapsPieced(Lit(words[0]), Gap(rest), s, at[0], n, caps);
    }
  }

  lemma CaptureReads(t: Pattern, s: string, i: nat, caps: seq<string>) returns (j: nat)
    requires i <= |s| && caps != [] && Matches(Then(Capture, t), s, i, caps)
    ensures Name(s, i, j) && s[i..j] == caps[0] && Matches(t, s, j, caps[1..])
  {
    j := PieceEnd(Then(Capture, t), s, i, caps);
    NameStands(s, i, j);
  }

  lemma CaptureIsRead(t: Pattern, s: string, i: nat, j: nat, name: string, caps: seq<string>)
    requires Name(s, i, j) && s[i..j] == name && Matches(t, s, j, caps)
    ensures Matches(Then(Capture, t), s, i, [name] + caps)
  {
    NameStands(s, i, j);
    PieceMatches(Capture, t, s, i, j, caps);
  }

  lemma SchemaReads(t: Pattern, s: string, i: nat, caps: seq<string>) returns (j: nat)
    requires i <= |s| && caps != [] && Matches(Then(Lit("iceberg."), Then(Capture, t)), s, i, caps)
    ensures Schema(s, i, j, caps[0]) && j == i + 8 + |caps[0]| <= |s| && Matches(t, s, j, caps[1..])
  {
    var k := PieceEnd(Then(Lit("iceberg."), Then(Capture, t)), s, i, caps);
    j := CaptureReads(t, s, k, caps);
  }

  lemma SchemaIsThere(t: Pattern, s: string, i: nat, j: nat, schema: string, caps: seq<string>)
    requires Schema(s, i, j, schema) && Matches(t, s, j, caps)
    ensures Matches(Then(Lit("iceberg."), Then(Capture, t)), s, i, [schema] + caps)
  {
    CaptureIsRead(t, s, i + 8, j, schema, caps);
    CapsPieced(Lit("iceberg."), Then(Capture, t), s, i, i + 8, [schema] + caps);
  }

  lemma DotReads(t: Pattern, s: string, i: nat, table: string) returns (j: nat)
    requires i <= |s| && Matches(Then(Lit("."), Then(Capture, t)), s, i, [table])
    ensures i < |s| && s[i] == '.' && Name(s, i + 1, j) && s[i + 1..j] == table && Matches(t, s, j, [])
  {
    var k := PieceEnd(Then(Lit("."), Then(Capture, t)), s, i, [table]);
    assert Lower(s[i + 0]) == "."[0] && k == i + 1;
    assert [table][0..] == [table] && [table][1..] == [];
    j := CaptureReads(t, s, k, [table]);
  }

  /** A dot and a table. */
  function Dotted(t: Pattern): Pattern {
    Then(Lit("."), Then(Capture, t))
  }

  lemma TargetReads(t: Pattern, s: string, i: nat, schema: string, table: string) returns (j: nat)
    requires i <= |s| && Matches(Then(Lit("iceberg."), Then(Capture, Dotted(t))), s, i, [schema, table])
    ensures Table(s, i, j, schema, table) && j <= |s| && Matches(t, s, j, [])
  {
    var k := SchemaReads(Dotted(t), s, i, [schema, table]);
    assert [schema, table][1..] == [table];
    j := DotReads(t, s, k, table);
  }

  lemma TargetIsRead(t: Pattern, s: string, i: nat, j: nat, schema: string, table: string)
    requires Table(s, i, j, schema, table) && Matches(t, s, j, [])
    ensures Matches(Target(t), s, i, [schema, table])
  {
    var dot := i + 8 + |schema|;
    var dotted := Then(Lit("."), Then(Capture, t));
    CaptureIsRead(t, s, dot + 1, j, table, []);
    assert [table] + [] == [table];
    CapsPieced(Lit("."), Then(Capture, t), s, dot, dot + 1, [table]);
    SchemaIsThere(dotted, s, i, dot, schema, [table]);
    assert [schema] + [table] == [schema, table];
  }

  lemma ShapeIff(words: seq<string>, t: Pattern, s: string, schema: string, table: string)
    ensures Matches(Header(words, Target(t)), s, 0, [schema, table])
       <==> exists j: nat :: OpensTo(s, words, schema, table, j) && j <= |s| && Matches(t, s, j, [])
  {
    if Matches(Header(words, Target(t)), s, 0, [schema, table]) {
      var at := HeaderReads(words, Target(t), s, 0, [schema, table]);
      var j := TargetReads(t, s, at[|words|], schema, table);
      assert Spells(s, 0, at[|words|], words);
      assert OpensTo(s, words, schema, table, j);
    }
    if j: nat :| OpensTo(s, words, schema, table, j) && j <= |s| && Matches(t, s, j, []) {
      var i: nat :| Spells(s, 0, i, words) && Table(s, i, j, schema, table);
      var at: seq<nat> :| Spelt(s, at, words) && at[0] == 0 && at[|words|] == i;
      TargetIsRead(t, s, i, j, schema, table);
      HeaderIsRead(words, Target(t), s, at, [schema, table]);
    }
  }

  // ---------------------------------------------------------- the theorems

  /** The rest of a statement of the shape, from `j` on. */
  ghost predicate IsTail(x: Shape, s: string, j: nat) {
    match x
    case CreateSchema => j == |s|
    case CtasReplace => AsSelect(s, j)
    case CtasIfNotExists => AsSelect(s, j)
    case DropTable => j == |s|
    case CreateView => exists v: View :: v.start == j && IsView(s, v)
    case DropView => j == |s|
    case InsertSelect => exists k: nat :: Blank(s, j, k) && Select(s, k)
    case Merge => IsMerge(s, j)
    case DeleteBatch => exists b: Batch :: b.start == j && IsBatch(s, b)
    case ExpireSnapshots => IsExpire(s, j)
    case Optimize => IsOptimize(s, j)
  }

  lemma TailIff(x: Shape, s: string, j: nat)
    requires j <= |s|
    ensures Matches(TailOf(x), s, j, []) <==> IsTail(x, s, j)
  {
    match x
    case CtasReplace => AsSelectIff(s, j);
    case CtasIfNotExists => AsSelectIff(s, j);
    case CreateView => ViewTailIff(s, j);
    case InsertSelect => InsertIff(s, j);
    case Merge => MergeTailIff(s, j);
    case DeleteBatch => BatchTailIff(s, j);
    case ExpireSnapshots => ExpireTailIff(s, j);
    case Optimize => OptimizeTailIff(s, j);
    case _ =>
  }

  ghost predicate IsShaped(x: Shape, s: string, schema: string, table: string) {
    exists j: nat :: OpensTo(s, HeaderOf(x), schema, table, j) && j <= |s| && IsTail(x, s, j)
  }

  lemma ShapedIff(x: Shape, s: string, schema: string, table: string)
    requires !x.CreateSchema?
    ensures Matches(PatternOf(x), s, 0, [schema, table]) <==> IsShaped(x, s, schema, table)
  {
    ShapeIff(HeaderOf(x), TailOf(x), s, schema, table);
    forall j: nat | j <= |s| ensures Matches(TailOf(x), s, j, []) <==> IsTail(x, s, j) {
      TailIff(x, s, j);
    }
  }

  const SCHEMA_TARGET: Pattern := Then(Lit("iceberg."), Then(Capture, Done))

  lemma SchemaShapeReads(words: seq<string>, s: string, schema: string) returns (i: nat)
    requires Matches(Header(words, SCHEMA_TARGET), s, 0, [schema])
    ensures Spells(s, 0, i, words) && Schema(s, i, |s|, schema)
  {
    var at := HeaderReads(words, SCHEMA_TARGET, s, 0, [schema]);
    i := at[|words|];
    var j := SchemaReads(Done, s, i, [schema]);
  }

  lemma SchemaShapeIsRead(words: seq<string>, s: string, schema: string, i: nat)
    requires Spells(s, 0, i, words) && Schema(s, i, |s|, schema)
    ensures Matches(Header(words, SCHEMA_TARGET), s, 0, [schema])
  {
    SchemaIsThere(Done, s, i, |s|, schema, []);
    assert [schema] + [] == [schema];
    var at: seq<nat> :| Spelt(s, at, words) && at[0] == 0 && at[|words|] == i;
    HeaderIsRead(words, SCHEMA_TARGET, s, at, [schema]);
  }

  lemma CreateSchemaIff(s: string, schema: string)
    ensures Matches(PatternOf(CreateSchema), s, 0, [schema])
       <==> exists i: nat :: Spells(s, 0, i, HeaderOf(CreateSchema)) && Schema(s, i, |s|, schema)
  {
    var words := HeaderOf(CreateSchema);
    assert PatternOf(CreateSchema) == Header(words, SCHEMA_TARGET);
    if Matches(Header(words, SCHEMA_TARGET), s, 0, [schema]) {
      var i := SchemaShapeReads(words, s, schema);
    }
    if i: nat :| Spells(s, 0, i, words) && Schema(s, i, |s|, schema) {
      SchemaShapeIsRead(words, s, schema, i);
    }
  }

  lemma OpeningEnds(s: string, words: seq<string>, schema: string, table: string, j: nat)
    requires OpensTo(s, words, schema, table, j)
    ensures j <= |s|
  {
  }

  /** The shape of a write, read off the text. */
  ghost predicate HasShape(x: Shape, s: string, w: ParsedWrite) {
    && w.kind == KindOf(x)
    && if x.CreateSchema? then w.table == None && Matches(PatternOf(x), s, 0, [w.schema])
       else w.table.Some? && IsShaped(x, s, w.schema, w.table.value)
  }

  lemma ReadingIffShape(s: string, w: ParsedWrite)
    ensures HasReading(s, w) <==> Shaped(s, w)
  {
    if HasReading(s, w) {
      var x, caps :| IsReading(s, x, caps, w);
      if x.CreateSchema? {
        assert caps == [w.schema];
      } else {
        assert caps == [w.schema, w.table.value];
        ShapedIff(x, s, w.schema, w.table.value);
      }
      assert HasShape(x, s, w);
    }
    if x :| HasShape(x, s, w) {
      if x.CreateSchema? {
        assert IsReading(s, x, [w.schema], w);
      } else {
        ShapedIff(x, s, w.schema, w.table.value);
        assert IsReading(s, x, [w.schema, w.table.value], w);
      }
    }
  }

  ghost predicate Shaped(s: string, w: ParsedWrite) {
    exists x :: HasShape(x, s, w)
  }

  lemma TailGivesShape(x: Shape, words: seq<string>, s: string, w: ParsedWrite, j: nat)
    requires !x.CreateSchema? && w.kind == KindOf(x) && words == HeaderOf(x)
    requires OpensWrite(s, words, w, j) && IsTail(x, s, j)
    ensures Shaped(s, w)
  {
    OpeningEnds(s, words, w.schema, w.table.value, j);
    assert HasShape(x, s, w);
  }

  /** The words of each shape with a target and a tail. */
  lemma HeadersAre()
    ensures ["create", "or", "replace", "view"] == HeaderOf(CreateView)
    ensures ["insert", "into"] == HeaderOf(InsertSelect)
    ensures ["merge", "into"] == HeaderOf(Merge)
    ensures ["delete", "from"] == HeaderOf(DeleteBatch)
    ensures ["alter", "table"] == HeaderOf(ExpireSnapshots)
    ensures ["alter", "table"] == HeaderOf(Optimize)
  {
  }

  lemma SchemaIsShaped(s: string, w: ParsedWrite)
    requires w.kind == KCreateSchema && CreatesSchema(s, w)
    ensures Shaped(s, w)
  {
    CreateSchemaIff(s, w.schema);
    assert HasShape(CreateSchema, s, w);
  }

  lemma DropHasShape(x: Shape, s: string, w: ParsedWrite)
    requires (x.DropTable? || x.DropView?) && w.kind == KindOf(x) && IsWrite(s, w)
    ensures Shaped(s, w)
  {
    TailGivesShape(x, HeaderOf(x), s, w, |s|);
  }

  lemma OneTableHasShape(x: Shape, s: string, w: ParsedWrite)
    requires (x.CtasReplace? || x.CtasIfNotExists?) && w.kind == KCtas && CreatesTable(s, w, HeaderOf(x))
    ensures Shaped(s, w)
  {
    var j: nat :| OpensWrite(s, HeaderOf(x), w, j) && AsSelect(s, j);
    TailGivesShape(x, HeaderOf(x), s, w, j);
  }

  lemma TableHasShape(s: string, w: ParsedWrite)
    requires w.kind == KCtas && IsWrite(s, w)
    ensures Shaped(s, w)
  {
    if CreatesTable(s, w, ["create", "or", "replace", "table"]) {
      OneTableHasShape(CtasReplace, s, w);
    } else {
      OneTableHasShape(CtasIfNotExists, s, w);
    }
  }

  lemma ViewIsShaped(s: string, w: ParsedWrite)
    requires w.kind == KCreateView && CreatesView(s, w)
    ensures Shaped(s, w)
  {
    var v: View :| OpensWrite(s, ["create", "or", "replace", "view"], w, v.start) && IsView(s, v);
    HeadersAre();
    TailGivesShape(CreateView, ["create", "or", "replace", "view"], s, w, v.start);
  }

  lemma InsertIsShaped(s: string, w: ParsedWrite)
    requires w.kind == KInsertSelect && InsertsRows(s, w)
    ensures Shaped(s, w)
  {
    var i: nat, j: nat :| OpensWrite(s, ["insert", "into"], w, i) && Blank(s, i, j) && Select(s, j);
    HeadersAre();
    TailGivesShape(InsertSelect, ["insert", "into"], s, w, i);
  }

  lemma MergeIsShaped(s: string, w: ParsedWrite)
    requires w.kind == KMerge && Merges(s, w)
    ensures Shaped(s, w)
  {
    var j: nat :| OpensWrite(s, ["merge", "into"], w, j) && IsMerge(s, j);
    HeadersAre();
    TailGivesShape(Merge, ["merge", "into"], s, w, j);
  }

  lemma BatchIsShaped(s: string, w: ParsedWrite)
    requires w.kind == KDeleteBatch && DeletesBatch(s, w)
    ensures Shaped(s, w)
  {
    var b: Batch :| OpensWrite(s, ["delete", "from"], w, b.start) && IsBatch(s, b);
    HeadersAre();
    TailGivesShape(DeleteBatch, ["delete", "from"], s, w, b.start);
  }

  lemma ExpiryIsShaped(s: string, w: ParsedWrite)
    requires w.kind == KExpireSnapshots && Expires(s, w)
    ensures Shaped(s, w)
  {
    var j: nat :| OpensWrite(s, ["alter", "table"], w, j) && IsExpire(s, j);
    HeadersAre();
    TailGivesShape(ExpireSnapshots, ["alter", "table"], s, w, j);
  }

  lemma OptimizeIsShaped(s: string, w: ParsedWrite)
    requires w.kind == KOptimize && Optimizes(s, w)
    ensures Shaped(s, w)
  {
    var j: nat :| OpensWrite(s, ["alter", "table"], w, j) && IsOptimize(s, j);
    HeadersAre();
    TailGivesShape(Optimize, ["alter", "table"], s, w, j);
  }

  lemma TailedHasShape(s: string, w: ParsedWrite)
    requires IsWrite(s, w) && (w.kind.KMerge? || w.kind.KDeleteBatch? || w.kind.KExpireSnapshots? || w.kind.KOptimize?)
    ensures Shaped(s, w)
  {
    match w.kind
    case KMerge => MergeIsShaped(s, w);
    case KDeleteBatch => BatchIsShaped(s, w);
    case KExpireSnapshots => ExpiryIsShaped(s, w);
    case KOptimize => OptimizeIsShaped(s, w);
    case _ => assert false;
  }

  lemma SelectedHasShape(s: string, w: ParsedWrite)
    requires IsWrite(s, w) && (w.kind.KCtas? || w.kind.KCreateView? || w.kind.KInsertSelect?)
    ensures Shaped(s, w)
  {
    match w.kind
    case KCtas => TableHasShape(s, w);
    case KCreateView => ViewIsShaped(s, w);
    case KInsertSelect => InsertIsShaped(s, w);
    case _ => assert false;
  }

  lemma WrittenHasShape(s: string, w: ParsedWrite)
    requires IsWrite(s, w)
    ensures Shaped(s, w)
  {
    match w.kind
    case KCreateSchema => SchemaIsShaped(s, w);
    case KDropTable => DropHasShape(DropTable, s, w);
    case KDropView => DropHasShape(DropView, s, w);
    case KCtas => SelectedHasShape(s, w);
    case KCreateView => SelectedHasShape(s, w);
    case KInsertSelect => SelectedHasShape(s, w);
    case _ => TailedHasShape(s, w);
  }

  lemma ShapedIsWrite(x: Shape, s: string, w: ParsedWrite)
    requires HasShape(x, s, w)
    ensures IsWrite(s, w)
  {
    if x.CreateSchema? {
      CreateSchemaIff(s, w.schema);
    } else {
      var j: nat :| OpensTo(s, HeaderOf(x), w.schema, w.table.value, j) && j <= |s| && IsTail(x, s, j);
      assert OpensWrite(s, HeaderOf(x), w, j);
    }
  }

  /** What the patterns read is exactly what is written out above. */
  lemma ReadingIffWrite(s: string, w: ParsedWrite)
    ensures HasReading(s, w) <==> IsWrite(s, w)
  {
    ReadingIffShape(s, w);
    if IsWrite(s, w) {
      WrittenHasShape(s, w);
    }
    if x :| HasShape(x, s, w) {
      ShapedIsWrite(x, s, w);
    }
  }

  /** The write door accepts exactly the texts that are one statement of the written-out forms,
      and returns the kind, schema and table of that form; it refuses any other statement for
      being none of them, and any other text for what the single-statement discipline says. */
  lemma WriteDoorIff(sql: string, w: ParsedWrite)
    ensures ParseStatement(sql) == Ok(w)
       <==> SingleStatement(sql).Ok? && IsWrite(SingleStatement(sql).value, w)
    ensures ParseStatement(sql).Err? && SingleStatement(sql).Ok? ==> ParseStatement(sql) == Err(StatementNotAllowed)
    ensures SingleStatement(sql).Err? ==> ParseStatement(sql) == Err(SingleStatement(sql).error)
  {
    ParseIff(sql, w);
    if SingleStatement(sql).Ok? {
      ReadingIffWrite(SingleStatement(sql).value, w);
      ParsedHasReading(SingleStatement(sql).value);
    }
  }

  /** The whole gate, from the text to the decision: it lets a write through exactly when the
      caller has an identity and a role, the text is one statement of the written-out forms with
      that target, and the target is one the caller may write to. */
  lemma GateIff(sql: string, uid: string, domains: seq<string>, role: string, w: ParsedWrite)
    ensures Guard(sql, uid, domains, role) == Ok(w)
       <==> && uid != "" && role != ""
            && SingleStatement(sql).Ok? && IsWrite(SingleStatement(sql).value, w)
            && MayWrite(w.schema, uid, domains, role)
  {
    GuardIff(sql, uid, domains, role, w);
    if SingleStatement(sql).Ok? {
      ReadingIffWrite(SingleStatement(sql).value, w);
    }
  }

  /** And why it refuses: first for a missing identity, then for the text, then for the target,
      which is a domain of the caller that asks for a higher role, or nothing of the caller's. */
  lemma GateRefusal(sql: string, uid: string, domains: seq<string>, role: string)
    ensures uid == "" || role == "" ==> Guard(sql, uid, domains, role) == Err(MissingIdentity)
    ensures uid != "" && role != "" && ParseStatement(sql).Err? ==>
              Guard(sql, uid, domains, role) == Err(ParseStatement(sql).error)
    ensures uid != "" && role != "" && ParseStatement(sql).Ok? ==>
              var schema := ParseStatement(sql).value.schema;
              !MayWrite(schema, uid, domains, role) ==>
                Guard(sql, uid, domains, role)
                == Err(if IsDomainOf(schema, domains) then RoleTooLow(schema) else TargetNotAllowed(schema))
  {
    if ParseStatement(sql).Ok? {
      AuthorizeIff(ParseStatement(sql).value, uid, domains, role);
    }
  }
}
