/** Inputs at which the doors of query-tool/execute_guard.py do something a reader of its
    documentation would not expect. */
module SqlExamples {
  import opened Prelude
  import opened TextRuns
  import opened Trimming
  import opened Identifiers
  import opened SqlStatement
  import opened SqlGuard
  import opened SqlRoundTrip
  import opened SqlViews

  predicate IsTameChar(c: char) {
    IsLetter(c) || c == ' ' || c == '.' || c == '_' || c == '(' || c == ')'
  }

  /** Lower-case letters, spaces, dots, bars and brackets. */
  predicate IsTame(t: string) {
    forall i :: 0 <= i < |t| ==> IsTameChar(t[i])
  }

  lemma TameIsStatement(t: string)
    requires IsTame(t) && IsTrimmed(t)
    ensures IsStatement(t)
  {
    CommentIsPair(t);
  }

  lemma TameAppends(a: string, b: string)
    requires IsTame(a) && IsTame(b)
    ensures IsTame(a + b)
  {
  }

  lemma BuiltOpens(words: seq<string>, schema: string, table: string, tail: string)
    requires IsName(schema) && IsName(table)
    ensures var s := Spaced(words) + TargetText(schema, table) + tail;
      && Opens(s, words, schema, table) && IsAt(s, OpeningLength(words, schema, table), tail)
      && |s| == OpeningLength(words, schema, table) + |tail|
  {
  }

  // ------------------------------------------- a view of more than one table

  lemma ViewHeader()
    ensures Spaced(HeaderOf(CreateView)) == "create or replace view "
  {
    assert Spaced(["view"]) == "view " && Spaced(["replace", "view"]) == "replace view ";
    assert Spaced(["or", "replace", "view"]) == "or replace view ";
  }

  const VIEW_HEAD: string := "create or replace view " + TargetText("d", "v")

  lemma BodyIsTame(text: string)
    requires IsTame(text)
    ensures IsTame(BodyText(text, "p", "q"))
  {
    assert IsTame(" as select ") && IsTame(" from iceberg.") && IsTame("p") && IsTame(".") && IsTame("q");
    TameAppends(" as select ", text);
    TameAppends(" as select " + text, " from iceberg.");
    TameAppends(" as select " + text + " from iceberg.", "p");
    TameAppends(" as select " + text + " from iceberg." + "p", ".");
    TameAppends(" as select " + text + " from iceberg." + "p" + ".", "q");
  }

  lemma HeadIsTame()
    ensures IsTame(VIEW_HEAD)
  {
    assert IsTame("create or replace view ") && IsTame(TargetText("d", "v"));
    TameAppends("create or replace view ", TargetText("d", "v"));
  }

  lemma TameViewIsStatement(text: string)
    requires IsTame(text)
    ensures IsStatement(VIEW_HEAD + BodyText(text, "p", "q"))
  {
    var body := BodyText(text, "p", "q");
    BodyIsTame(text);
    HeadIsTame();
    TameAppends(VIEW_HEAD, body);
    assert body[|body| - 1] == 'q';
    TameIsStatement(VIEW_HEAD + body);
  }

  lemma TameViewOpens(text: string)
    ensures var s, body := VIEW_HEAD + BodyText(text, "p", "q"), BodyText(text, "p", "q");
      && Opens(s, HeaderOf(CreateView), "d", "v") && |VIEW_HEAD| == OpeningLength(HeaderOf(CreateView), "d", "v")
      && IsAt(s, |VIEW_HEAD|, body) && |s| == |VIEW_HEAD| + |body|
  {
    ViewHeader();
    BuiltOpens(HeaderOf(CreateView), "d", "v", BodyText(text, "p", "q"));
  }

  /** The view of `iceberg.p.q` with a tame text before its last `from`. */
  lemma TameViewIsRead(text: string)
    requires IsTame(text)
    ensures var s := VIEW_HEAD + BodyText(text, "p", "q");
      && ParseStatement(s) == Ok(ParsedWrite(KCreateView, "d", Some("v")))
      && (Froms(s[|VIEW_HEAD|..]) == 1 <==> "from" !in TextWords(text))
      && (TableWords(s[|VIEW_HEAD|..]) == 1 <==> !HasTableWord(TextWords(text)))
  {
    TameViewIsStatement(text);
    TameViewOpens(text);
    assert LowerAll("p")[0] == 'p' && LowerAll("q")[0] == 'q' && "from"[0] == 'f' && "table"[0] == 't';
    AnyBodyIsRead("d", "v", VIEW_HEAD + BodyText(text, "p", "q"), text, "p", "q");
  }

  /** A word between characters outside words. */
  lemma WordInside(before: string, word: string, after: string)
    requires before != "" && !IsWordChar(before[|before| - 1]) && after != "" && !IsWordChar(after[0])
    requires word != "" && forall i :: 0 <= i < |word| ==> IsLetter(word[i])
    ensures TextWords(before + (word + after)) == TextWords(before) + ([word] + TextWords(after))
  {
    TextFirst(before, word + after);
    WordFirst(word, after);
    LetterWord(word);
  }

  /** A union: a second select, from a table of its own. */
  const UNION: string := "a " + ("from" + " iceberg.x.y union all select b")

  /** A view of two tables is accepted, although the comment beside the pattern calls for a
      plain select from one. */
  lemma ViewOfTwoTablesIsRead()
    ensures var s := VIEW_HEAD + BodyText(UNION, "p", "q");
      && ParseStatement(s) == Ok(ParsedWrite(KCreateView, "d", Some("v")))
      && Froms(s[|VIEW_HEAD|..]) != 1
  {
    var rest := " iceberg.x.y union all select b";
    assert IsTame("a ") && IsTame("from") && IsTame(rest);
    TameAppends("from", rest);
    TameAppends("a ", "from" + rest);
    WordInside("a ", "from", rest);
    TameViewIsRead(UNION);
  }

  lemma GapThenWord(gap: string, word: string, after: string)
    requires gap != "" && (forall i :: 0 <= i < |gap| ==> !IsWordChar(gap[i]))
    requires word != "" && (forall i :: 0 <= i < |word| ==> IsLetter(word[i]))
    requires after != "" && !IsWordChar(after[0])
    ensures TextWords(gap + (word + after)) == [word] + TextWords(after)
  {
    GapFirst(gap, word + after);
    WordFirst(word, after);
    LetterWord(word);
  }

  const SECOND_TABLE: string := " " + ("iceberg" + ("." + ("x" + ("." + ("y" + ")")))))

  /** A subquery that takes a whole second table without the word `from`. */
  const TABLE_QUERY: string := "(" + ("table" + SECOND_TABLE)

  lemma TableQueryWords()
    ensures TextWords(TABLE_QUERY) == ["table"] + (["iceberg"] + (["x"] + (["y"] + [])))
  {
    GapThenWord("(", "table", SECOND_TABLE);
    GapThenWord(" ", "iceberg", "." + ("x" + ("." + ("y" + ")"))));
    GapThenWord(".", "x", "." + ("y" + ")"));
    GapThenWord(".", "y", ")");
    NoWordsAtAll(")");
  }

  lemma NoWordsAtAll(t: string)
    requires forall i :: 0 <= i < |t| ==> !IsWordChar(t[i])
    ensures TextWords(t) == []
  {
    LowerKeepsClass(t);
    NoRuns(LowerAll(t), WordChars);
  }

  lemma TableQueryIsTame()
    ensures IsTame(TABLE_QUERY)
  {
    assert IsTame(SECOND_TABLE) && IsTame("(") && IsTame("table");
    TameAppends("table", SECOND_TABLE);
    TameAppends("(", "table" + SECOND_TABLE);
  }

  lemma TableButNotFrom(words: seq<string>)
    requires words == ["table"] + (["iceberg"] + (["x"] + (["y"] + [])))
    ensures "from" !in words && HasTableWord(words)
  {
    assert words == ["table", "iceberg", "x", "y"];
    assert "from"[0] == 'f' && "table"[0] == 't' && "iceberg"[0] == 'i' && "x"[0] == 'x' && "y"[0] == 'y';
    assert words[0] in words && IsTableWord(words[0]);
  }

  /** Such a view has a single FROM and is accepted, too. */
  lemma ViewOfTableQueryIsRead()
    ensures var s := VIEW_HEAD + BodyText(TABLE_QUERY, "p", "q");
      && ParseStatement(s) == Ok(ParsedWrite(KCreateView, "d", Some("v")))
      && Froms(s[|VIEW_HEAD|..]) == 1 && TableWords(s[|VIEW_HEAD|..]) != 1
  {
    TableQueryIsTame();
    TableQueryWords();
    TableButNotFrom(TextWords(TABLE_QUERY));
    TameViewIsRead(TABLE_QUERY);
  }

  /** A part of a date, with a `from` of its own. */
  const DATE_PART: string := "extract(year " + ("from" + " ts)")

  /** A plain select from one table may hold the word twice; so a single one is enough for one
      table, and not necessary. */
  lemma PlainViewMayHoldTwoFroms()
    ensures var s := VIEW_HEAD + BodyText(DATE_PART, "p", "q");
      && ParseStatement(s) == Ok(ParsedWrite(KCreateView, "d", Some("v")))
      && Froms(s[|VIEW_HEAD|..]) != 1
  {
    assert IsTame("extract(year ") && IsTame("from") && IsTame(" ts)");
    TameAppends("from", " ts)");
    TameAppends("extract(year ", "from" + " ts)");
    WordInside("extract(year ", "from", " ts)");
    TameViewIsRead(DATE_PART);
  }

  // ---------------------------------------------- who may write where, and not

  function DropText(schema: string): string {
    "drop table if exists " + TargetText(schema, "t")
  }

  lemma DropHeader()
    ensures Spaced(HeaderOf(DropTable)) == "drop table if exists "
  {
    assert Spaced(["exists"]) == "exists " && Spaced(["if", "exists"]) == "if exists ";
    assert Spaced(["table", "if", "exists"]) == "table if exists ";
  }

  lemma DropIsTame(schema: string)
    requires IsTame(schema)
    ensures IsTame(DropText(schema)) && IsTrimmed(DropText(schema))
  {
    assert IsTame("drop table if exists ") && IsTame("iceberg.") && IsTame(".") && IsTame("t");
    TameAppends("iceberg.", schema);
    TameAppends("iceberg." + schema, ".");
    TameAppends("iceberg." + schema + ".", "t");
    TameAppends("drop table if exists ", TargetText(schema, "t"));
  }

  lemma DropTextIsRead(schema: string)
    requires IsTame(schema) && IsName(schema)
    ensures ParseStatement(DropText(schema)) == Ok(ParsedWrite(KDropTable, schema, Some("t")))
  {
    DropIsTame(schema);
    TameIsStatement(DropText(schema));
    DropHeader();
    BuiltOpens(HeaderOf(DropTable), schema, "t", "");
    assert DropText(schema) + "" == DropText(schema);
    DropIsRead(schema, "t", DropText(schema));
  }

  lemma LetterWord(w: string)
    requires w != "" && forall i :: 0 <= i < |w| ==> IsLetter(w[i])
    ensures LowerAll(w) == w && Runs(w, Alnums) == [w]
  {
    LowerStays(w);
    OneRun(w);
  }

  /** Two words with a hyphen between them. */
  lemma HyphenIsBar(v: string, w: string)
    requires v != "" && forall i :: 0 <= i < |v| ==> IsLetter(v[i])
    requires w != "" && forall i :: 0 <= i < |w| ==> IsLetter(w[i])
    ensures SanitizeIdent(v + ("-" + w)) == v + ("_" + w)
  {
    LetterWord(v);
    LetterWord(w);
    HyphenWords(v, w);
    SanitizeIsNameWords(v + ("-" + w));
    JoinTwo(v, w);
  }

  lemma JoinTwo(v: string, w: string)
    ensures JoinBars([v, w]) == v + ("_" + w)
  {
    assert [v, w][1..] == [w];
    assert v + "_" + w == v + ("_" + w);
  }

  lemma HyphenWords(v: string, w: string)
    requires LowerAll(v) == v && LowerAll(w) == w && Runs(v, Alnums) == [v] && Runs(w, Alnums) == [w]
    ensures Words(v + ("-" + w)) == [v, w]
  {
    LowerSplits(v, "-" + w);
    LowerSplits("-", w);
    assert LowerAll("-") == "-";
    RunsAppend(v, "-" + w, Alnums);
    RunsSkipPrefix("-", w, Alnums);
  }

  lemma OwnSchemaIsAdmitted(w: ParsedWrite, uid: string)
    requires w.schema == PersonalSchema(uid)
    ensures Admit(Ok(w), uid, [], "creator") == Ok(w)
  {
    assert Entitled([]) == {};
  }

  lemma OneDomain(d: string, schema: string)
    requires SanitizeIdent(d) == schema
    ensures schema in Entitled([d])
  {
    assert d in [d];
  }

  lemma CreatorIsBelowBuilder()
    ensures "creator" !in BUILDER_ROLES
  {
  }

  lemma LowRoleIsRefused(w: ParsedWrite, uid: string, domains: seq<string>)
    requires w.schema in Entitled(domains)
    ensures Admit(Ok(w), uid, domains, "creator") == Err(RoleTooLow(w.schema))
  {
    CreatorIsBelowBuilder();
  }

  lemma GuardedDrop(schema: string, uid: string, domains: seq<string>)
    requires IsTame(schema) && IsName(schema) && uid != ""
    ensures Guard(DropText(schema), uid, domains, "creator")
         == Admit(Ok(ParsedWrite(KDropTable, schema, Some("t"))), uid, domains, "creator")
  {
    DropTextIsRead(schema);
  }

  predicate IsPlainName(a: string) {
    a != "" && forall i :: 0 <= i < |a| ==> IsLetter(a[i])
  }

  lemma PlainNameStays(a: string)
    requires IsPlainName(a)
    ensures SanitizeIdent(a) == a
  {
    assert IsTidy(a);
    CanonicalStays(a);
  }

  lemma PlainNameIsName(a: string)
    requires IsPlainName(a)
    ensures IsTame("personal_" + a) && IsName("personal_" + a)
  {
    var p := "personal_" + a;
    assert forall i :: 0 <= i < 9 ==> p[i] == "personal_"[i];
    assert forall i :: 9 <= i < |p| ==> p[i] == a[i - 9];
  }

  lemma Regrouped(a: string)
    ensures "personal-" + a == "personal" + ("-" + a) && "personal_" + a == "personal" + ("_" + a)
  {
  }

  lemma HyphenatedDomain(a: string)
    requires IsPlainName(a)
    ensures SanitizeIdent("personal-" + a) == "personal_" + a
  {
    Regrouped(a);
    HyphenIsBar("personal", a);
  }

  /** A creator with a plain name may drop a table of its personal schema, until it joins the
      domain called "personal-" and that name. */
  lemma DomainHidesPersonalSchema(a: string, d: string, schema: string)
    requires IsPlainName(a) && d == "personal-" + a && schema == "personal_" + a
    ensures Guard(DropText(schema), a, [], "creator") == Ok(ParsedWrite(KDropTable, schema, Some("t")))
    ensures Guard(DropText(schema), a, [d], "creator") == Err(RoleTooLow(schema))
  {
    var w := ParsedWrite(KDropTable, schema, Some("t"));
    PlainNameStays(a);
    PlainNameIsName(a);
    HyphenatedDomain(a);
    GuardedDrop(schema, a, []);
    GuardedDrop(schema, a, [d]);
    OwnSchemaIsAdmitted(w, a);
    OneDomain(d, schema);
    LowRoleIsRefused(w, a, [d]);
  }

  lemma WordlessIsUser(v: string)
    requires Words(v) == []
    ensures PersonalSchema(v) == "personal_" + "user"
  {
    SanitizeIsWords(v);
  }

  lemma UserIsName(schema: string)
    requires schema == "personal_" + "user"
    ensures IsTame(schema) && IsName(schema)
  {
    PlainNameIsName("user");
  }

  lemma OwnDropIsAllowed(schema: string, uid: string)
    requires IsTame(schema) && IsName(schema) && uid != "" && schema == PersonalSchema(uid)
    ensures Guard(DropText(schema), uid, [], "creator") == Ok(ParsedWrite(KDropTable, schema, Some("t")))
  {
    GuardedDrop(schema, uid, []);
    OwnSchemaIsAdmitted(ParsedWrite(KDropTable, schema, Some("t")), uid);
  }

  /** An identity without a letter or digit may write to `personal_user` through the guard. */
  lemma WordlessIdentityWrites(uid: string, schema: string)
    requires uid != "" && Words(uid) == [] && schema == "personal_" + "user"
    ensures Guard(DropText(schema), uid, [], "creator") == Ok(ParsedWrite(KDropTable, schema, Some("t")))
  {
    WordlessIsUser(uid);
    UserIsName(schema);
    OwnDropIsAllowed(schema, uid);
  }

  /** The data runner refuses it whatever it asks for. */
  lemma WordlessIdentityIsRefused(uid: string, dataset: string, schema: string)
    requires Words(uid) == []
    ensures IngestNamespace(uid, dataset, schema).Err?
  {
    IngestAgreesWithGuard(uid, dataset, schema);
  }

  /** One input each: the identity "a" with the domain "personal-a", and the identity "-". */
  lemma DomainHidesAtOneInput()
    ensures Guard(DropText("personal_" + "a"), "a", [], "creator").Ok?
    ensures Guard(DropText("personal_" + "a"), "a", ["personal-" + "a"], "creator").Err?
  {
    DomainHidesPersonalSchema("a", "personal-" + "a", "personal_" + "a");
  }

  lemma WordlessAtOneInput()
    ensures Guard(DropText("personal_" + "user"), "-", [], "creator").Ok?
    ensures IngestNamespace("-", "d", "").Err?
  {
    assert LowerAll("-") == "-";
    NoRuns("-", Alnums);
    WordlessIdentityWrites("-", "personal_" + "user");
    WordlessIdentityIsRefused("-", "d", "");
  }
}
