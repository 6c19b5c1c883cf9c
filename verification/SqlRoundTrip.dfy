/** Statements written for a target are read back with that target
    (query-tool/execute_guard.py). */
module SqlRoundTrip {
  import opened Prelude
  import opened TextRuns
  import opened SqlStatement
  import opened SqlPatterns
  import opened SqlGuard

  /** The words, each followed by one space. */
  function Spaced(words: seq<string>): string {
    if words == [] then "" else words[0] + " " + Spaced(words[1..])
  }

  /** A bare identifier. */
  predicate IsName(name: string) {
    IsIdent(name, 0, |name|)
  }

  function TargetText(schema: string, table: string): string {
    "iceberg." + schema + "." + table
  }

  predicate IsAt(s: string, i: nat, piece: string) {
    i + |piece| <= |s| && forall k :: 0 <= k < |piece| ==> s[i + k] == piece[k]
  }

  lemma PieceMatches(a: Atom, t: Pattern, s: string, i: nat, j: nat, caps: seq<string>)
    requires i <= j <= |s| && Stands(a, s, i, j) && Matches(t, s, j, caps)
    ensures Matches(Then(a, t), s, i, Caught(a, s[i..j]) + caps)
  {
    var all := Caught(a, s[i..j]) + caps;
    assert all[|Caught(a, s[i..j])|..] == caps;
    assert MatchesVia(a, t, s, i, j, all);
  }

  lemma LiteralMatches(text: string, t: Pattern, s: string, i: nat, caps: seq<string>)
    requires IsAt(s, i, text) && (forall k :: 0 <= k < |text| ==> Lower(text[k]) == text[k])
    requires Matches(t, s, i + |text|, caps)
    ensures Matches(Then(Lit(text), t), s, i, caps)
  {
    PieceMatches(Lit(text), t, s, i, i + |text|, caps);
    assert [] + caps == caps;
  }

  lemma GapMatches(t: Pattern, s: string, i: nat, caps: seq<string>)
    requires IsAt(s, i, " ") && Matches(t, s, i + 1, caps)
    ensures Matches(Gap(t), s, i, caps)
  {
    assert s[i + 0] == " "[0];
    PieceMatches(Many(Space, 1), t, s, i, i + 1, caps);
    assert [] + caps == caps;
  }

  lemma NameMatches(name: string, t: Pattern, s: string, i: nat, caps: seq<string>)
    requires IsAt(s, i, name) && IsName(name) && Matches(t, s, i + |name|, caps)
    ensures Matches(Then(Capture, t), s, i, [name] + caps)
  {
    assert forall k :: i <= k < i + |name| ==> s[k] == name[k - i];
    assert s[i..i + |name|] == name;
    PieceMatches(Capture, t, s, i, i + |name|, caps);
  }

  lemma SplitAt(s: string, i: nat, a: string, b: string)
    requires IsAt(s, i, a + b)
    ensures IsAt(s, i, a) && IsAt(s, i + |a|, b)
  {
    assert forall k :: 0 <= k < |a| ==> (a + b)[k] == a[k];
    assert forall k :: 0 <= k < |b| ==> (a + b)[|a| + k] == b[k];
  }

  lemma {:induction false} HeaderMatches(words: seq<string>, t: Pattern, s: string, i: nat, caps: seq<string>)
    requires ArePlain(words) && IsAt(s, i, Spaced(words))
    requires Matches(t, s, i + |Spaced(words)|, caps)
    ensures Matches(Header(words, t), s, i, caps)
  {
    if words != [] {
      var w, rest := words[0], Spaced(words[1..]);
      SplitAt(s, i, w + " ", rest);
      SplitAt(s, i, w, " ");
      HeaderMatches(words[1..], t, s, i + |w| + 1, caps);
      GapMatches(Header(words[1..], t), s, i + |w|, caps);
      LiteralMatches(w, Gap(Header(words[1..], t)), s, i, caps);
    }
  }

  lemma PairMatches(word: string, name: string, t: Pattern, s: string, i: nat, caps: seq<string>)
    requires word == "." || word == "iceberg."
    requires IsName(name) && IsAt(s, i, word) && IsAt(s, i + |word|, name)
    requires Matches(t, s, i + |word| + |name|, caps)
    ensures Matches(Then(Lit(word), Then(Capture, t)), s, i, [name] + caps)
  {
    NameMatches(name, t, s, i + |word|, caps);
    LiteralMatches(word, Then(Capture, t), s, i, [name] + caps);
  }

  lemma TargetMatches(schema: string, table: string, t: Pattern, s: string, i: nat)
    requires IsName(schema) && IsName(table) && IsAt(s, i, TargetText(schema, table))
    requires Matches(t, s, i + |TargetText(schema, table)|, [])
    ensures Matches(Target(t), s, i, [schema, table])
  {
    SplitAt(s, i, "iceberg." + schema + ".", table);
    SplitAt(s, i, "iceberg." + schema, ".");
    SplitAt(s, i, "iceberg.", schema);
    PairMatches(".", table, t, s, i + 8 + |schema|, []);
    PairMatches("iceberg.", schema, Then(Lit("."), Then(Capture, t)), s, i, [table] + []);
    assert [schema] + ([table] + []) == [schema, table];
  }

  lemma ReadingIsRead(s: string, x: Shape, caps: seq<string>, w: ParsedWrite)
    requires IsStatement(s) && IsReading(s, x, caps, w)
    ensures ParseStatement(s) == Ok(w)
  {
    StatementIsFixed(s);
    ReadingIsParsed(s, x, caps, w);
  }

  /** The words, each followed by one space, and the target open the statement. */
  predicate Opens(s: string, words: seq<string>, schema: string, table: string) {
    && IsName(schema) && IsName(table)
    && IsAt(s, 0, Spaced(words)) && IsAt(s, |Spaced(words)|, TargetText(schema, table))
  }

  function OpeningLength(words: seq<string>, schema: string, table: string): nat {
    |Spaced(words)| + |TargetText(schema, table)|
  }

  lemma StatementMatches(words: seq<string>, t: Pattern, schema: string, table: string, s: string)
    requires ArePlain(words) && Opens(s, words, schema, table)
    requires Matches(t, s, OpeningLength(words, schema, table), [])
    ensures Matches(Header(words, Target(t)), s, 0, [schema, table])
  {
    TargetMatches(schema, table, t, s, |Spaced(words)|);
    HeaderMatches(words, Target(t), s, 0, [schema, table]);
  }

  /** Whatever statement starts with a shape's words and a target, and goes on with a tail of
      that shape: the parser reads back its kind, schema and table. */
  lemma WrittenIsRead(x: Shape, schema: string, table: string, s: string)
    requires !x.CreateSchema? && IsStatement(s) && Opens(s, HeaderOf(x), schema, table)
    requires Matches(TailOf(x), s, OpeningLength(HeaderOf(x), schema, table), [])
    ensures ParseStatement(s) == Ok(ParsedWrite(KindOf(x), schema, Some(table)))
  {
    WrittenMatches(x, schema, table, s);
    ReadingIsRead(s, x, [schema, table], ParsedWrite(KindOf(x), schema, Some(table)));
  }

  lemma PatternParts(x: Shape) returns (words: seq<string>, t: Pattern)
    requires !x.CreateSchema?
    ensures words == HeaderOf(x) && t == TailOf(x) && ArePlain(words)
    ensures PatternOf(x) == Header(words, Target(t))
  {
    words, t := HeaderOf(x), TailOf(x);
    HeadersArePlain(x);
  }

  lemma WrittenMatches(x: Shape, schema: string, table: string, s: string)
    requires !x.CreateSchema? && Opens(s, HeaderOf(x), schema, table)
    requires Matches(TailOf(x), s, OpeningLength(HeaderOf(x), schema, table), [])
    ensures Matches(PatternOf(x), s, 0, [schema, table])
  {
    var words, t := PatternParts(x);
    StatementMatches(words, t, schema, table, s);
  }

  lemma SchemaMatches(words: seq<string>, schema: string, s: string)
    requires ArePlain(words) && IsName(schema)
    requires IsAt(s, 0, Spaced(words)) && IsAt(s, |Spaced(words)|, "iceberg." + schema)
    requires |s| == |Spaced(words)| + 8 + |schema|
    ensures Matches(Header(words, Then(Lit("iceberg."), Then(Capture, Done))), s, 0, [schema])
  {
    SplitAt(s, |Spaced(words)|, "iceberg.", schema);
    PairMatches("iceberg.", schema, Done, s, |Spaced(words)|, []);
    assert [schema] + [] == [schema];
    HeaderMatches(words, Then(Lit("iceberg."), Then(Capture, Done)), s, 0, [schema]);
  }

  lemma SchemaIsRead(schema: string, s: string)
    requires IsStatement(s) && IsName(schema) && IsAt(s, 0, Spaced(HeaderOf(CreateSchema)))
    requires IsAt(s, |Spaced(HeaderOf(CreateSchema))|, "iceberg." + schema)
    requires |s| == |Spaced(HeaderOf(CreateSchema))| + 8 + |schema|
    ensures ParseStatement(s) == Ok(ParsedWrite(KCreateSchema, schema, None))
  {
    HeadersArePlain(CreateSchema);
    SchemaMatches(HeaderOf(CreateSchema), schema, s);
    ReadingIsRead(s, CreateSchema, [schema], ParsedWrite(KCreateSchema, schema, None));
  }

  /** So a drop of any named table is read back whole, and an append of any query is read back
      with its target. */
  lemma DropIsRead(schema: string, table: string, s: string)
    requires IsStatement(s) && Opens(s, HeaderOf(DropTable), schema, table)
    requires |s| == OpeningLength(HeaderOf(DropTable), schema, table)
    ensures ParseStatement(s) == Ok(ParsedWrite(KDropTable, schema, Some(table)))
  {
    WrittenIsRead(DropTable, schema, table, s);
  }

  lemma AppendIsRead(schema: string, table: string, s: string)
    requires IsStatement(s) && Opens(s, HeaderOf(InsertSelect), schema, table)
    requires var n := OpeningLength(HeaderOf(InsertSelect), schema, table);
      IsAt(s, n, " select") && (n + 7 == |s| || !IsWordChar(s[n + 7]))
    ensures ParseStatement(s) == Ok(ParsedWrite(KInsertSelect, schema, Some(table)))
  {
    var n := OpeningLength(HeaderOf(InsertSelect), schema, table);
    SelectMatches(s, n);
    WrittenIsRead(InsertSelect, schema, table, s);
  }

  lemma SelectMatches(s: string, i: nat)
    requires IsAt(s, i, " select") && (i + 7 == |s| || !IsWordChar(s[i + 7]))
    ensures Matches(Gap(SELECT_TAIL), s, i, [])
  {
    assert " select" == " " + "select";
    SplitAt(s, i, " ", "select");
    SelectTailMatches(s, i + 1);
    GapMatches(SELECT_TAIL, s, i, []);
  }

  lemma SelectTailMatches(s: string, i: nat)
    requires IsAt(s, i, "select") && (i + 6 == |s| || !IsWordChar(s[i + 6]))
    ensures Matches(SELECT_TAIL, s, i, [])
  {
    var j := i + 6;
    assert s[i + 5] == "select"[5];
    var none: seq<string> := [];
    AnyMatches(s, j);
    PieceMatches(Edge, AnyText(Done), s, j, j, none);
    assert none + none == none;
    LiteralMatches("select", Then(Edge, AnyText(Done)), s, i, []);
  }

  lemma AnyMatches(s: string, j: nat)
    requires j <= |s|
    ensures Matches(AnyText(Done), s, j, [])
  {
    var none: seq<string> := [];
    assert Matches(Done, s, |s|, none);
    PieceMatches(Many(Any, 0), Done, s, j, |s|, none);
    assert none + none == none;
  }
}
