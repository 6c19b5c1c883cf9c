/** The write door: eleven statement shapes, and who may write where (query-tool/execute_guard.py). */
module SqlGuard {
  import opened Prelude
  import opened TextRuns
  import opened Identifiers
  import opened SqlStatement
  import opened SqlPatterns

  datatype Shape =
    | CreateSchema
    | CtasReplace
    | CtasIfNotExists
    | DropTable
    | CreateView
    | DropView
    | InsertSelect
    | Merge
    | DeleteBatch
    | ExpireSnapshots
    | Optimize

  datatype Kind =
    | KCreateSchema
    | KCtas
    | KDropTable
    | KCreateView
    | KDropView
    | KInsertSelect
    | KMerge
    | KDeleteBatch
    | KExpireSnapshots
    | KOptimize

  datatype ParsedWrite = ParsedWrite(kind: Kind, schema: string, table: Option<string>)

  // --------------------------------------------------------- the shapes

  /** `word\s+` */
  function W(word: string, p: Pattern): Pattern {
    Then(Lit(word), Gap(p))
  }

  /** `\s+` */
  function Gap(p: Pattern): Pattern {
    Then(Many(Space, 1), p)
  }

  /** `\s*text\s*` */
  function Sign(text: string, p: Pattern): Pattern {
    Then(Many(Space, 0), Then(Lit(text), Then(Many(Space, 0), p)))
  }

  function AnyText(p: Pattern): Pattern {
    Then(Many(Any, 0), p)
  }

  /** `\bword\b.*` */
  function Clause(word: string, p: Pattern): Pattern {
    Then(Edge, Then(Lit(word), Then(Edge, AnyText(p))))
  }

  function Target(p: Pattern): Pattern {
    Then(Lit("iceberg."), Then(Capture, Then(Lit("."), Then(Capture, p))))
  }

  /** `select\b.*` */
  const SELECT_TAIL: Pattern := Then(Lit("select"), Then(Edge, AnyText(Done)))

  const VIEW_TAIL: Pattern :=
    W("as", W("select", AnyText(Then(Edge, W("from",
      Then(Lit("iceberg."), Then(Ident, Then(Lit("."), Then(Ident, Then(Many(Space, 0), Done))))))))))

  const MERGE_ALIAS: Pattern := Gap(Maybe(W("as", Done), Then(Ident, Done)))

  const MERGE_TAIL: Pattern := Maybe(MERGE_ALIAS, Gap(W("using", AnyText(Clause("on", Clause("when", Done))))))

  const BATCH_TAIL: Pattern :=
    W("where", Then(Lit("_batch_id"), Sign("=", Then(Lit("'"), Then(Many(BatchChar, 1), Then(Lit("'"), Done))))))

  /** `'[0-9]+unit'\s*\)` */
  function Amount(units: Class, max: nat): Pattern {
    Then(Lit("'"), Then(Many(Digit, 1), Then(Span(units, 1, max), Then(Lit("'"),
      Then(Many(Space, 0), Then(Lit(")"), Done))))))
  }

  /** `\s*\(\s*name\s*=>\s*'[0-9]+unit'\s*\)` */
  function Threshold(name: string, units: Class, max: nat): Pattern {
    Sign("(", Then(Lit(name), Sign("=>", Amount(units, max))))
  }

  const EXPIRE_TAIL: Pattern :=
    W("execute", Then(Lit("expire_snapshots"), Threshold("retention_threshold", DayOrHour, 1)))

  const OPTIMIZE_TAIL: Pattern :=
    W("execute", Then(Lit("optimize"), Maybe(Threshold("file_size_threshold", Letter, 3), Done)))

  /** `word\s+` for each word, then the pattern. */
  function Header(words: seq<string>, p: Pattern): Pattern {
    if words == [] then p else W(words[0], Header(words[1..], p))
  }

  function HeaderOf(x: Shape): seq<string> {
    match x
    case CreateSchema => ["create", "schema", "if", "not", "exists"]
    case CtasReplace => ["create", "or", "replace", "table"]
    case CtasIfNotExists => ["create", "table", "if", "not", "exists"]
    case DropTable => ["drop", "table", "if", "exists"]
    case CreateView => ["create", "or", "replace", "view"]
    case DropView => ["drop", "view", "if", "exists"]
    case InsertSelect => ["insert", "into"]
    case Merge => ["merge", "into"]
    case DeleteBatch => ["delete", "from"]
    case ExpireSnapshots => ["alter", "table"]
    case Optimize => ["alter", "table"]
  }

  function TailOf(x: Shape): Pattern {
    match x
    case CreateSchema => Done
    case CtasReplace => Gap(W("as", SELECT_TAIL))
    case CtasIfNotExists => Gap(W("as", SELECT_TAIL))
    case DropTable => Done
    case CreateView => Gap(VIEW_TAIL)
    case DropView => Done
    case InsertSelect => Gap(SELECT_TAIL)
    case Merge => MERGE_TAIL
    case DeleteBatch => Gap(BATCH_TAIL)
    case ExpireSnapshots => Gap(EXPIRE_TAIL)
    case Optimize => Gap(OPTIMIZE_TAIL)
  }

  function TargetOf(x: Shape): Pattern {
    if x.CreateSchema? then Then(Lit("iceberg."), Then(Capture, TailOf(x))) else Target(TailOf(x))
  }

  function PatternOf(x: Shape): Pattern {
    Header(HeaderOf(x), TargetOf(x))
  }

  function KindOf(x: Shape): Kind {
    match x
    case CreateSchema => KCreateSchema
    case CtasReplace => KCtas
    case CtasIfNotExists => KCtas
    case DropTable => KDropTable
    case CreateView => KCreateView
    case DropView => KDropView
    case InsertSelect => KInsertSelect
    case Merge => KMerge
    case DeleteBatch => KDeleteBatch
    case ExpireSnapshots => KExpireSnapshots
    case Optimize => KOptimize
  }

  // ------------------------------------------ no text has two shapes

  predicate ArePlain(words: seq<string>) {
    forall k :: 0 <= k < |words| ==> words[k] != "" && forall i :: 0 <= i < |words[k]| ==> IsLetter(words[k][i])
  }

  lemma HeadersArePlain(x: Shape)
    ensures ArePlain(HeaderOf(x)) && HeaderOf(x) != []
    ensures StartsBlack(TargetOf(x)) && StopsIdent(TailOf(x))
  {
  }

  lemma WordStep(word: string, p: Pattern, q: Pattern)
    requires StartsBlack(p) && StartsBlack(q)
    ensures Apart(p, q) ==> Apart(W(word, p), W(word, q))
    ensures Agree(p, q) ==> Agree(W(word, p), W(word, q))
  {
    Step(Gap(p), Gap(q));
    Step(W(word, p), W(word, q));
  }

  lemma {:induction false} HeaderStep(words: seq<string>, p: Pattern, q: Pattern)
    requires ArePlain(words) && StartsBlack(p) && StartsBlack(q)
    ensures StartsBlack(Header(words, p)) && StartsBlack(Header(words, q))
    ensures Apart(p, q) ==> Apart(Header(words, p), Header(words, q))
    ensures Agree(p, q) ==> Agree(Header(words, p), Header(words, q))
  {
    if words != [] {
      HeaderStep(words[1..], p, q);
      WordStep(words[0], Header(words[1..], p), Header(words[1..], q));
    }
  }

  lemma TargetStep(p: Pattern, q: Pattern)
    requires StopsIdent(p) && StopsIdent(q)
    ensures Apart(p, q) ==> Apart(Target(p), Target(q))
    ensures Agree(p, q) ==> Agree(Target(p), Target(q))
  {
    var p1, q1 := Then(Capture, p), Then(Capture, q);
    var p2, q2 := Then(Lit("."), p1), Then(Lit("."), q1);
    var p3, q3 := Then(Capture, p2), Then(Capture, q2);
    Step(p1, q1);
    Step(p2, q2);
    Step(p3, q3);
    Step(Target(p), Target(q));
  }

  /** Headers that differ first at clashing words set their patterns apart. */
  lemma {:induction false} HeadersApart(v: seq<string>, w: seq<string>, k: nat, p: Pattern, q: Pattern)
    requires ArePlain(v) && ArePlain(w) && StartsBlack(p) && StartsBlack(q)
    requires k < |v| && k < |w| && v[..k] == w[..k] && Clash(v[k], w[k])
    ensures Apart(Header(v, p), Header(w, q))
  {
    HeaderStep(v[1..], p, p);
    HeaderStep(w[1..], q, q);
    if k > 0 {
      assert v[1..][..k - 1] == v[..k][1..] && w[1..][..k - 1] == w[..k][1..];
      assert v[0] == v[..k][0] == w[..k][0] == w[0];
      HeadersApart(v[1..], w[1..], k - 1, p, q);
      WordStep(v[0], Header(v[1..], p), Header(w[1..], q));
    }
  }

  lemma HeadersClash(x: Shape, y: Shape) returns (k: nat)
    requires HeaderOf(x) != HeaderOf(y)
    ensures var v, w := HeaderOf(x), HeaderOf(y);
      k < |v| && k < |w| && v[..k] == w[..k] && Clash(v[k], w[k])
  {
    var v, w := HeaderOf(x), HeaderOf(y);
    k := if v[0] != w[0] then 0 else if v[1] != w[1] then 1 else 3;
  }

  lemma ProceduresClash()
    ensures Clash("expire_snapshots", "optimize")
  {
  }

  lemma ExecutesAreApart()
    ensures Apart(EXPIRE_TAIL, OPTIMIZE_TAIL) && StartsBlack(EXPIRE_TAIL) && StartsBlack(OPTIMIZE_TAIL)
  {
    ProceduresClash();
    WordStep("execute", EXPIRE_TAIL.rest.rest, OPTIMIZE_TAIL.rest.rest);
  }

  lemma TailsApart(p: Pattern, q: Pattern)
    requires Apart(p, q) && StartsBlack(p) && StartsBlack(q)
    ensures Apart(Target(Gap(p)), Target(Gap(q)))
  {
    Step(Gap(p), Gap(q));
    TargetStep(Gap(p), Gap(q));
  }

  lemma AltersAreApart()
    ensures Apart(TargetOf(ExpireSnapshots), TargetOf(Optimize))
  {
    ExecutesAreApart();
    TailsApart(EXPIRE_TAIL, OPTIMIZE_TAIL);
  }

  lemma SameHeaderApart(x: Shape, y: Shape)
    requires x != y && HeaderOf(x) == HeaderOf(y)
    ensures Apart(TargetOf(x), TargetOf(y))
  {
    assert HeaderOf(x)[0] == "alter" == HeaderOf(y)[0];
    AltersAreApart();
    if y.ExpireSnapshots? {
      ApartIsSymmetric(TargetOf(y), TargetOf(x));
    }
  }

  lemma ShapesAreApart(x: Shape, y: Shape)
    requires x != y
    ensures Apart(PatternOf(x), PatternOf(y))
  {
    var v, w, p, q := HeaderOf(x), HeaderOf(y), TargetOf(x), TargetOf(y);
    HeadersArePlain(x);
    HeadersArePlain(y);
    if v != w {
      var k := HeadersClash(x, y);
      HeadersApart(v, w, k, p, q);
    } else {
      SameHeaderApart(x, y);
      HeaderStep(v, p, q);
    }
  }

  lemma ThresholdCapturesNothing(name: string, units: Class, max: nat)
    ensures NoCaptures(Threshold(name, units, max))
  {
    var close := Then(Lit("'"), Then(Many(Space, 0), Then(Lit(")"), Done)));
    assert NoCaptures(close);
    assert NoCaptures(Then(Span(units, 1, max), close));
    assert NoCaptures(Amount(units, max));
    var arrow := Then(Lit("=>"), Then(Many(Space, 0), Amount(units, max)));
    assert NoCaptures(arrow);
    var inner := Then(Lit(name), Sign("=>", Amount(units, max)));
    assert NoCaptures(inner);
    assert NoCaptures(Then(Many(Space, 0), inner));
  }

  lemma TailsCaptureNothing(x: Shape)
    ensures NoCaptures(TailOf(x))
  {
    match x
    case ExpireSnapshots => ThresholdCapturesNothing("retention_threshold", DayOrHour, 1);
    case Optimize => ThresholdCapturesNothing("file_size_threshold", Letter, 3);
    case Merge => assert NoCaptures(Clause("when", Done));
    case _ =>
  }

  lemma ShapesAgree(x: Shape)
    ensures Agree(PatternOf(x), PatternOf(x))
  {
    HeadersArePlain(x);
    TailsCaptureNothing(x);
    if x.CreateSchema? {
      var p := Then(Capture, Done);
      Step(p, p);
      Step(TargetOf(x), TargetOf(x));
    } else {
      TargetStep(TailOf(x), TailOf(x));
    }
    HeaderStep(HeaderOf(x), TargetOf(x), TargetOf(x));
  }

  /** A text has at most one shape, and its captures are determined, however it is matched. */
  lemma OneReading(s: string, x: Shape, c: seq<string>, y: Shape, d: seq<string>)
    requires Matches(PatternOf(x), s, 0, c) && Matches(PatternOf(y), s, 0, d)
    ensures x == y && c == d
  {
    if x != y {
      ShapesAreApart(x, y);
      ApartIsSound(PatternOf(x), PatternOf(y), s, 0, c, d);
    } else {
      ShapesAgree(x);
      AgreeIsSound(PatternOf(x), PatternOf(x), s, 0, c, d);
    }
  }

  // ------------------------------------------------------- the parser

  function WriteOf(x: Shape, caps: seq<string>): ParsedWrite
    requires |caps| == if x.CreateSchema? then 1 else 2
  {
    ParsedWrite(KindOf(x), caps[0], if x.CreateSchema? then None else Some(caps[1]))
  }

  /** The order of the tests in `parse_statement`. */
  const TEST_ORDER: seq<Shape> :=
    [CreateSchema, CtasReplace, CtasIfNotExists, DropTable, CreateView, DropView, InsertSelect, Merge,
     DeleteBatch, ExpireSnapshots, Optimize]

  /** The first shape, in the given order, that the search finds. */
  function Classify(s: string, order: seq<Shape>): Option<(Shape, seq<string>)> {
    if order == [] then None
    else
      var found := Search(PatternOf(order[0]), s, 0);
      if found.Some? then Some((order[0], found.value)) else Classify(s, order[1..])
  }

  function Parse(s: string): Result<ParsedWrite, SqlError> {
    match Classify(s, TEST_ORDER)
    case None => Err(StatementNotAllowed)
    case Some(found) =>
      ClassifyIsSound(s, TEST_ORDER);
      TwoCaptures(s, found.0, found.1);
      Ok(WriteOf(found.0, found.1))
  }

  function ParseStatement(sql: string): Result<ParsedWrite, SqlError> {
    match SingleStatement(sql)
    case Err(e) => Err(e)
    case Ok(s) => Parse(s)
  }

  lemma {:induction false} ClassifyIsSound(s: string, order: seq<Shape>)
    ensures var r := Classify(s, order);
      r.Some? ==> r.value.0 in order && Matches(PatternOf(r.value.0), s, 0, r.value.1)
  {
    if order != [] {
      SearchIsSound(PatternOf(order[0]), s, 0);
      ClassifyIsSound(s, order[1..]);
    }
  }

  lemma {:induction false} ClassifyIsComplete(s: string, order: seq<Shape>, x: Shape, caps: seq<string>)
    requires x in order && Matches(PatternOf(x), s, 0, caps)
    ensures Classify(s, order) == Some((x, caps))
  {
    SearchIsSound(PatternOf(order[0]), s, 0);
    var found := Search(PatternOf(order[0]), s, 0);
    if found.Some? {
      OneReading(s, order[0], found.value, x, caps);
    } else if order[0] == x {
      SearchIsComplete(PatternOf(x), s, 0, caps);
    } else {
      ClassifyIsComplete(s, order[1..], x, caps);
    }
  }

  lemma {:induction false} HeaderCounts(words: seq<string>, p: Pattern)
    ensures Captures(Header(words, p)) == Captures(p)
    ensures OptionsCaptureNothing(Header(words, p)) <==> OptionsCaptureNothing(p)
  {
    if words != [] {
      HeaderCounts(words[1..], p);
      assert Captures(W(words[0], Header(words[1..], p))) == Captures(Gap(Header(words[1..], p)));
    }
  }

  lemma TwoCaptures(s: string, x: Shape, caps: seq<string>)
    requires Matches(PatternOf(x), s, 0, caps)
    ensures |caps| == if x.CreateSchema? then 1 else 2
  {
    TailsCaptureNothing(x);
    NoneToCount(TailOf(x));
    HeaderCounts(HeaderOf(x), TargetOf(x));
    TargetCounts(TailOf(x));
    CountsCaptures(PatternOf(x), s, 0, caps);
  }

  lemma TargetCounts(p: Pattern)
    ensures Captures(Target(p)) == 2 + Captures(p)
    ensures OptionsCaptureNothing(Target(p)) <==> OptionsCaptureNothing(p)
  {
    var q := Then(Lit("."), Then(Capture, p));
    assert Captures(q) == 1 + Captures(p);
    assert OptionsCaptureNothing(q) <==> OptionsCaptureNothing(p);
  }

  /** The order in which the shapes are tried does not matter. */
  lemma OrderIsIrrelevant(s: string, first: seq<Shape>, second: seq<Shape>)
    requires forall x :: x in first <==> x in second
    ensures Classify(s, first) == Classify(s, second)
  {
    ClassifyIsSound(s, first);
    ClassifyIsSound(s, second);
    if Classify(s, first).Some? {
      ClassifyIsComplete(s, second, Classify(s, first).value.0, Classify(s, first).value.1);
    } else if Classify(s, second).Some? {
      ClassifyIsComplete(s, first, Classify(s, second).value.0, Classify(s, second).value.1);
    }
  }

  lemma AllAreTested(x: Shape)
    ensures x in TEST_ORDER
  {
  }

  ghost predicate IsReading(s: string, x: Shape, caps: seq<string>, w: ParsedWrite) {
    && Matches(PatternOf(x), s, 0, caps)
    && |caps| == (if x.CreateSchema? then 1 else 2)
    && w == WriteOf(x, caps)
  }

  ghost predicate HasReading(s: string, w: ParsedWrite) {
    exists x, caps :: IsReading(s, x, caps, w)
  }

  lemma ReadingIsParsed(s: string, x: Shape, caps: seq<string>, w: ParsedWrite)
    requires IsReading(s, x, caps, w)
    ensures Parse(s) == Ok(w)
  {
    AllAreTested(x);
    ClassifyIsComplete(s, TEST_ORDER, x, caps);
  }

  lemma ParsedHasReading(s: string)
    ensures Parse(s).Ok? ==> HasReading(s, Parse(s).value)
    ensures Parse(s).Err? ==> Parse(s).error == StatementNotAllowed
  {
    ClassifyIsSound(s, TEST_ORDER);
    if Parse(s).Ok? {
      var found := Classify(s, TEST_ORDER).value;
      TwoCaptures(s, found.0, found.1);
      assert IsReading(s, found.0, found.1, Parse(s).value);
    }
  }

  /** The parser accepts exactly the texts that are one statement of one of the shapes, and
      what it returns is what that shape captures. */
  lemma ParseIff(sql: string, w: ParsedWrite)
    ensures ParseStatement(sql) == Ok(w)
       <==> SingleStatement(sql).Ok? && HasReading(SingleStatement(sql).value, w)
  {
    if SingleStatement(sql).Ok? {
      var s := SingleStatement(sql).value;
      ParsedHasReading(s);
      if HasReading(s, w) {
        var x, caps :| IsReading(s, x, caps, w);
        ReadingIsParsed(s, x, caps, w);
      }
    }
  }

  // ------------------------------------------------------ the two doors

  lemma StartOfHeader(s: string, word: string, p: Pattern, caps: seq<string>)
    requires word != "" && (forall i :: 0 <= i < |word| ==> IsLetter(word[i]))
    requires Matches(W(word, p), s, 0, caps)
    ensures LeadingWord(LowerAll(s)) == word
  {
    var j := PieceEnd(W(word, p), s, 0, caps);
    var k := PieceEnd(Gap(p), s, j, caps);
    var t := LowerAll(s);
    assert t == word + t[|word|..] && IsPySpace(s[j]);
    RunLengthAppend(word, t[|word|..], Letters);
    FullRun(word, Letters);
  }

  /** No text passes both doors: a statement of the write door starts with a word that the
      read door does not let in. */
  lemma DoorsAreDisjoint(sql: string)
    ensures ParseStatement(sql).Ok? ==> GuardRead(sql) == Err(NotARead)
    ensures GuardRead(sql).Ok? ==> ParseStatement(sql) == Err(StatementNotAllowed)
  {
    if ParseStatement(sql).Ok? {
      var s := SingleStatement(sql).value;
      ParsedHasReading(s);
      var x, caps :| IsReading(s, x, caps, ParseStatement(sql).value);
      HeadersArePlain(x);
      StartOfHeader(s, HeaderOf(x)[0], Header(HeaderOf(x)[1..], TargetOf(x)), caps);
      HeadersAreNotReads(x);
    } else if SingleStatement(sql).Ok? {
      ParsedHasReading(SingleStatement(sql).value);
    }
  }

  lemma HeadersAreNotReads(x: Shape)
    ensures HeaderOf(x)[0] !in READ_LEADING
  {
  }

  // ----------------------------------------------- who may write where

  const BUILDER_ROLES: set<string> := {"builder", "domain_admin", "admin"}

  function Entitled(domains: seq<string>): set<string> {
    set d | d in domains :: SanitizeIdent(d)
  }

  function AuthorizeTarget(w: ParsedWrite, uid: string, domains: seq<string>, role: string): Option<SqlError> {
    if w.schema in Entitled(domains) then
      if role in BUILDER_ROLES then None else Some(RoleTooLow(w.schema))
    else if w.schema == PersonalSchema(uid) then None
    else Some(TargetNotAllowed(w.schema))
  }

  /** Allowlist first, then authorisation of the target. */
  function Admit(parsed: Result<ParsedWrite, SqlError>, uid: string, domains: seq<string>, role: string)
    : Result<ParsedWrite, SqlError>
  {
    match parsed
    case Err(e) => Err(e)
    case Ok(w) =>
      match AuthorizeTarget(w, uid, domains, role)
      case Some(e) => Err(e)
      case None => Ok(w)
  }

  function Guard(sql: string, uid: string, domains: seq<string>, role: string): Result<ParsedWrite, SqlError> {
    if uid == "" || role == "" then Err(MissingIdentity) else Admit(ParseStatement(sql), uid, domains, role)
  }

  lemma AdmittedIsCanonical(parsed: Result<ParsedWrite, SqlError>, uid: string, domains: seq<string>, role: string)
    ensures var r := Admit(parsed, uid, domains, role); r.Ok? ==> IsCanonical(r.value.schema)
  {
    var r := Admit(parsed, uid, domains, role);
    if r.Ok? && r.value.schema in Entitled(domains) {
      var d :| d in domains && r.value.schema == SanitizeIdent(d);
      SanitizeIsCanonical(d);
    }
    PersonalIsStable(uid);
  }

  /** Whatever the guard accepts targets a canonical schema name, so an unquoted name in
      another case never reaches the catalogue, and sanitising it again changes nothing. */
  lemma AcceptedTargetIsCanonical(sql: string, uid: string, domains: seq<string>, role: string)
    ensures var r := Guard(sql, uid, domains, role);
      r.Ok? ==> IsCanonical(r.value.schema) && SanitizeIdent(r.value.schema) == r.value.schema
  {
    var r := Guard(sql, uid, domains, role);
    AdmittedIsCanonical(ParseStatement(sql), uid, domains, role);
    if r.Ok? {
      CanonicalStays(r.value.schema);
    }
  }

  /** A domain of the caller has the name. */
  predicate IsDomainOf(schema: string, domains: seq<string>) {
    exists d :: d in domains && SanitizeIdent(d) == schema
  }

  predicate IsBuilder(role: string) {
    role == "builder" || role == "domain_admin" || role == "admin"
  }

  /** May the caller write to the schema? A domain of the caller that has the name decides;
      only when none has it does the personal schema count. */
  predicate MayWrite(schema: string, uid: string, domains: seq<string>, role: string) {
    if IsDomainOf(schema, domains) then IsBuilder(role) else schema == "personal_" + SanitizeIdent(uid)
  }

  lemma EntitledIff(schema: string, domains: seq<string>)
    ensures schema in Entitled(domains) <==> IsDomainOf(schema, domains)
  {
  }

  lemma BuilderIff(role: string)
    ensures role in BUILDER_ROLES <==> IsBuilder(role)
  {
  }

  /** A target is refused for the role when a domain of the caller has the name, and otherwise
      for being none of the caller's. */
  lemma AuthorizeIff(w: ParsedWrite, uid: string, domains: seq<string>, role: string)
    ensures AuthorizeTarget(w, uid, domains, role)
         == if MayWrite(w.schema, uid, domains, role) then None
            else Some(if IsDomainOf(w.schema, domains) then RoleTooLow(w.schema) else TargetNotAllowed(w.schema))
  {
    EntitledIff(w.schema, domains);
    BuilderIff(role);
  }

  lemma AdmitIff(parsed: Result<ParsedWrite, SqlError>, uid: string, domains: seq<string>, role: string, w: ParsedWrite)
    ensures Admit(parsed, uid, domains, role) == Ok(w)
       <==> parsed == Ok(w) && MayWrite(w.schema, uid, domains, role)
  {
    AuthorizeIff(w, uid, domains, role);
  }

  /** The whole gate, from the text to the decision. */
  lemma GuardIff(sql: string, uid: string, domains: seq<string>, role: string, w: ParsedWrite)
    ensures Guard(sql, uid, domains, role) == Ok(w)
       <==> && uid != "" && role != ""
            && SingleStatement(sql).Ok? && HasReading(SingleStatement(sql).value, w)
            && MayWrite(w.schema, uid, domains, role)
  {
    ParseIff(sql, w);
    AdmitIff(ParseStatement(sql), uid, domains, role, w);
  }

  lemma AdmitLosesIff(parsed: Result<ParsedWrite, SqlError>, uid: string, domains: seq<string>, d: string, role: string)
    ensures var r := Admit(parsed, uid, domains, role);
      r.Ok? ==>
        (Admit(parsed, uid, domains + [d], role).Err?
         <==> SanitizeIdent(d) == r.value.schema && r.value.schema == PersonalSchema(uid) && role !in BUILDER_ROLES)
  {
    EntitledGrows(domains, d);
  }

  lemma EntitledGrows(domains: seq<string>, d: string)
    ensures Entitled(domains + [d]) == Entitled(domains) + {SanitizeIdent(d)}
  {
  }

  /** Gaining a domain can take a write away: exactly the one to the caller's own personal
      schema, when the domain's name sanitises to it and the role is below builder. */
  lemma DomainTakesAwayIff(sql: string, uid: string, domains: seq<string>, d: string, role: string)
    ensures var r := Guard(sql, uid, domains, role);
      r.Ok? ==>
        (Guard(sql, uid, domains + [d], role).Err?
         <==> SanitizeIdent(d) == r.value.schema && r.value.schema == PersonalSchema(uid) && role !in BUILDER_ROLES)
  {
    AdmitLosesIff(ParseStatement(sql), uid, domains, d, role);
  }
}
