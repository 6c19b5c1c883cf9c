/** What may stand in the body of a view (query-tool/execute_guard.py): any text before the
    last `from`. When that leaves a body with a single FROM clause. */
module SqlViews {
  import opened Prelude
  import opened TextRuns
  import opened SqlText
  import opened SqlStatement
  import opened SqlPatterns
  import opened SqlGuard
  import opened SqlRoundTrip

  // ------------------------------------------- patterns piece by piece

  /** The atoms of a pattern without optional parts. */
  function AtomsOf(p: Pattern): seq<Atom> {
    match p
    case Done => []
    case Then(a, t) => [a] + AtomsOf(t)
    case Maybe(_, _) => []
  }

  predicate IsLinear(p: Pattern) {
    p.Done? || (p.Then? && !p.atom.Capture? && IsLinear(p.rest))
  }

  /** Atom `k` stands for `s[q[k]..q[k + 1]]`, up to the end of the text. */
  ghost predicate Chain(atoms: seq<Atom>, s: string, q: seq<nat>) {
    && |q| == |atoms| + 1 && q[|atoms|] == |s|
    && forall k :: 0 <= k < |atoms| ==> Stretch(atoms[k], s, q, k)
  }

  ghost predicate Stretch(a: Atom, s: string, q: seq<nat>, k: nat)
    requires k + 1 < |q|
  {
    q[k] <= q[k + 1] <= |s| && Stands(a, s, q[k], q[k + 1])
  }

  lemma ChainGrows(a: Atom, atoms: seq<Atom>, s: string, i: nat, q: seq<nat>)
    requires Chain(atoms, s, q) && i <= q[0] <= |s| && Stands(a, s, i, q[0])
    ensures Chain([a] + atoms, s, [i] + q)
  {
    var all, r := [a] + atoms, [i] + q;
    forall k | 0 <= k < |all| ensures Stretch(all[k], s, r, k) {
      assert k > 0 ==> all[k] == atoms[k - 1] && Stretch(atoms[k - 1], s, q, k - 1);
    }
  }

  lemma ChainShrinks(atoms: seq<Atom>, s: string, q: seq<nat>)
    requires Chain(atoms, s, q) && atoms != []
    ensures Chain(atoms[1..], s, q[1..])
  {
    var rest, r := atoms[1..], q[1..];
    forall k | 0 <= k < |rest| ensures Stretch(rest[k], s, r, k) {
      assert rest[k] == atoms[k + 1] && Stretch(atoms[k + 1], s, q, k + 1);
    }
  }

  lemma {:induction false} MatchIsChain(p: Pattern, s: string, i: nat) returns (q: seq<nat>)
    requires IsLinear(p) && i <= |s| && Matches(p, s, i, [])
    ensures Chain(AtomsOf(p), s, q) && q[0] == i
  {
    if p.Done? {
      q := [i];
    } else {
      var j := PieceEnd(p, s, i, []);
      var r := MatchIsChain(p.rest, s, j);
      ChainGrows(p.atom, AtomsOf(p.rest), s, i, r);
      q := [i] + r;
    }
  }

  lemma {:induction false} ChainIsMatch(p: Pattern, s: string, q: seq<nat>)
    requires IsLinear(p) && Chain(AtomsOf(p), s, q)
    ensures q[0] <= |s| && Matches(p, s, q[0], [])
  {
    if p.Then? {
      assert AtomsOf(p)[1..] == AtomsOf(p.rest);
      ChainShrinks(AtomsOf(p), s, q);
      ChainIsMatch(p.rest, s, q[1..]);
      assert AtomsOf(p)[0] == p.atom && Stretch(AtomsOf(p)[0], s, q, 0);
      var none: seq<string> := [];
      PieceMatches(p.atom, p.rest, s, q[0], q[1], none);
      assert none + none == none;
    }
  }

  // ------------------------------------------------------ the words of a text

  /** The whole words of a text, in lower case. */
  function TextWords(t: string): seq<string> {
    Runs(LowerAll(t), WordChars)
  }

  lemma LowerSplits(a: string, b: string)
    ensures LowerAll(a + b) == LowerAll(a) + LowerAll(b)
  {
  }

  lemma LowerKeepsClass(t: string)
    ensures forall i :: 0 <= i < |t| ==> (IsWordChar(LowerAll(t)[i]) <==> IsWordChar(t[i]))
  {
  }

  /** Leading characters outside any word do not matter. */
  lemma GapFirst(g: string, t: string)
    requires forall i :: 0 <= i < |g| ==> !IsWordChar(g[i])
    ensures TextWords(g + t) == TextWords(t)
  {
    LowerSplits(g, t);
    LowerKeepsClass(g);
    RunsSkipPrefix(LowerAll(g), LowerAll(t), WordChars);
  }

  lemma WordFirst(w: string, t: string)
    requires w != "" && (forall i :: 0 <= i < |w| ==> IsWordChar(w[i]))
    requires t == "" || !IsWordChar(t[0])
    ensures TextWords(w + t) == [LowerAll(w)] + TextWords(t)
  {
    LowerSplits(w, t);
    LowerKeepsClass(w);
    LowerKeepsClass(t);
    RunsAppend(LowerAll(w), LowerAll(t), WordChars);
    WholeRun(LowerAll(w));
  }

  lemma WholeRun(w: string)
    requires w != "" && forall i :: 0 <= i < |w| ==> IsWordChar(w[i])
    ensures Runs(w, WordChars) == [w]
  {
    FullRun(w, WordChars);
    assert w[..|w|] == w && w[|w|..] == "";
    assert Runs("", WordChars) == [];
  }

  lemma RunsAround(init: string, gap: string, b: string)
    requires gap != "" && forall i :: 0 <= i < |gap| ==> !IsWordChar(gap[i])
    ensures Runs(init + (gap + b), WordChars) == Runs(init, WordChars) + Runs(b, WordChars)
  {
    RunsAppend(init, gap + b, WordChars);
    RunsSkipPrefix(gap, b, WordChars);
  }

  lemma SplitLast(a: string, b: string) returns (init: string, last: string)
    requires a != ""
    ensures a == init + (last + "") && a + b == init + (last + b) && last == [a[|a| - 1]]
  {
    init, last := a[..|a| - 1], [a[|a| - 1]];
  }

  lemma RunsAfterGap(a: string, b: string)
    requires a != "" && !IsWordChar(a[|a| - 1])
    ensures Runs(a + b, WordChars) == Runs(a, WordChars) + Runs(b, WordChars)
  {
    var init, last := SplitLast(a, b);
    RunsAround(init, last, b);
    RunsAround(init, last, "");
    assert Runs(a, WordChars) == Runs(init, WordChars) + Runs("", WordChars);
    assert Runs("", WordChars) == [];
  }

  /** A text that ends outside any word is split off in front. */
  lemma TextFirst(m: string, t: string)
    requires m != "" && !IsWordChar(m[|m| - 1])
    ensures TextWords(m + t) == TextWords(m) + TextWords(t)
  {
    LowerSplits(m, t);
    LowerKeepsClass(m);
    RunsAfterGap(LowerAll(m), LowerAll(t));
  }

  lemma GapAt(s: string, i: nat, j: nat)
    requires i <= j <= |s| && forall k :: i <= k < j ==> !IsWordChar(s[k])
    ensures TextWords(s[i..]) == TextWords(s[j..])
  {
    assert s[i..] == s[i..j] + s[j..];
    GapFirst(s[i..j], s[j..]);
  }

  lemma OneWordAt(s: string, i: nat, j: nat)
    requires i < j <= |s| && (forall k :: i <= k < j ==> IsWordChar(s[k])) && (j == |s| || !IsWordChar(s[j]))
    ensures TextWords(s[i..]) == [LowerAll(s[i..j])] + TextWords(s[j..])
  {
    assert s[i..] == s[i..j] + s[j..];
    WordFirst(s[i..j], s[j..]);
  }

  lemma TextAt(s: string, i: nat, j: nat)
    requires i < j <= |s| && !IsWordChar(s[j - 1])
    ensures TextWords(s[i..]) == TextWords(s[i..j]) + TextWords(s[j..])
  {
    assert s[i..] == s[i..j] + s[j..];
    TextFirst(s[i..j], s[j..]);
  }

  // --------------------------------------------------- the tail of a view

  /** `\s+as\s+select\s+.*\bfrom\s+iceberg\.ident\.ident\s*`, atom by atom. */
  const VIEW_ATOMS: seq<Atom> :=
    [Many(Space, 1), Lit("as"), Many(Space, 1), Lit("select"), Many(Space, 1), Many(Any, 0), Edge,
     Lit("from"), Many(Space, 1), Lit("iceberg."), Ident, Lit("."), Ident, Many(Space, 0)]

  /** The same in the pattern's terms. */
  predicate Stood(s: string, v: View)
    requires Ascends(s, v)
  {
    && Stands(Many(Space, 1), s, v.start, v.asAt) && Stands(Lit("as"), s, v.asAt, v.asEnd)
    && Stands(Many(Space, 1), s, v.asEnd, v.selectAt) && Stands(Lit("select"), s, v.selectAt, v.selectEnd)
    && Stands(Many(Space, 1), s, v.selectEnd, v.textAt) && AtBoundary(s, v.fromAt)
    && Stands(Lit("from"), s, v.fromAt, v.fromEnd) && Stands(Many(Space, 1), s, v.fromEnd, v.sourceAt)
    && Stands(Lit("iceberg."), s, v.sourceAt, v.schemaAt) && Stands(Ident, s, v.schemaAt, v.schemaEnd)
    && Stands(Lit("."), s, v.schemaEnd, v.tableAt) && Stands(Ident, s, v.tableAt, v.tableEnd)
    && Stands(Many(Space, 0), s, v.tableEnd, |s|)
  }

  lemma ViewStands(s: string, v: View)
    ensures IsView(s, v) <==> Ascends(s, v) && Stood(s, v)
  {
    if Ascends(s, v) {
      SaysStands(s, v.asAt, v.asEnd, "as");
      SaysStands(s, v.selectAt, v.selectEnd, "select");
      SaysStands(s, v.fromAt, v.fromEnd, "from");
      SaysStands(s, v.sourceAt, v.schemaAt, "iceberg.");
      SaysStands(s, v.schemaEnd, v.tableAt, ".");
      BlankStands(s, v.start, v.asAt);
      BlankStands(s, v.asEnd, v.selectAt);
      BlankStands(s, v.selectEnd, v.textAt);
      BlankStands(s, v.fromEnd, v.sourceAt);
      BlankStands(s, v.tableEnd, |s|);
      NameStands(s, v.schemaAt, v.schemaEnd);
      NameStands(s, v.tableAt, v.tableEnd);
    }
  }

  lemma SaysStands(s: string, i: nat, j: nat, word: string)
    requires i <= j <= |s|
    ensures Says(s, i, j, word) <==> Stands(Lit(word), s, i, j)
  {
  }

  lemma BlankStands(s: string, i: nat, j: nat)
    requires i <= j <= |s|
    ensures Blanks(s, i, j) <==> Stands(Many(Space, 0), s, i, j)
    ensures Blank(s, i, j) <==> Stands(Many(Space, 1), s, i, j)
  {
  }

  lemma NameStands(s: string, i: nat, j: nat)
    requires i <= j <= |s|
    ensures Name(s, i, j) <==> Stands(Ident, s, i, j)
  {
    assert forall k :: i <= k < j ==> IsIdentChar(s[k]) == IsWordChar(s[k]);
  }

  function Marks(s: string, v: View): seq<nat> {
    [v.start, v.asAt, v.asEnd, v.selectAt, v.selectEnd, v.textAt, v.fromAt, v.fromAt, v.fromEnd, v.sourceAt,
     v.schemaAt, v.schemaEnd, v.tableAt, v.tableEnd, |s|]
  }

  lemma StretchesOf(s: string, q: seq<nat>)
    requires Chain(VIEW_ATOMS, s, q)
    ensures Stretch(Many(Space, 1), s, q, 0) && Stretch(Lit("as"), s, q, 1) && Stretch(Many(Space, 1), s, q, 2)
    ensures Stretch(Lit("select"), s, q, 3) && Stretch(Many(Space, 1), s, q, 4) && Stretch(Many(Any, 0), s, q, 5)
    ensures Stretch(Edge, s, q, 6) && Stretch(Lit("from"), s, q, 7) && Stretch(Many(Space, 1), s, q, 8)
    ensures Stretch(Lit("iceberg."), s, q, 9) && Stretch(Ident, s, q, 10) && Stretch(Lit("."), s, q, 11)
    ensures Stretch(Ident, s, q, 12) && Stretch(Many(Space, 0), s, q, 13)
  {
    forall k | 0 <= k < 14 ensures Stretch(VIEW_ATOMS[k], s, q, k) {
    }
    assert VIEW_ATOMS[0] == Many(Space, 1) && VIEW_ATOMS[1] == Lit("as") && VIEW_ATOMS[2] == Many(Space, 1);
    assert VIEW_ATOMS[3] == Lit("select") && VIEW_ATOMS[4] == Many(Space, 1) && VIEW_ATOMS[5] == Many(Any, 0);
    assert VIEW_ATOMS[6] == Edge && VIEW_ATOMS[7] == Lit("from") && VIEW_ATOMS[8] == Many(Space, 1);
    assert VIEW_ATOMS[9] == Lit("iceberg.") && VIEW_ATOMS[10] == Ident && VIEW_ATOMS[11] == Lit(".");
    assert VIEW_ATOMS[12] == Ident && VIEW_ATOMS[13] == Many(Space, 0);
  }

  lemma ChainIsView(s: string, q: seq<nat>) returns (v: View)
    requires Chain(VIEW_ATOMS, s, q)
    ensures IsView(s, v) && v.start == q[0]
  {
    StretchesOf(s, q);
    v := View(q[0], q[1], q[2], q[3], q[4], q[5], q[6], q[8], q[9], q[10], q[11], q[12], q[13]);
    ViewStands(s, v);
  }

  lemma ViewIsChain(s: string, v: View)
    requires IsView(s, v)
    ensures Chain(VIEW_ATOMS, s, Marks(s, v))
  {
    ViewStands(s, v);
    forall k | 0 <= k < 14 ensures Stretch(VIEW_ATOMS[k], s, Marks(s, v), k) {
    }
  }

  lemma ViewAtoms()
    ensures IsLinear(Gap(VIEW_TAIL)) && AtomsOf(Gap(VIEW_TAIL)) == VIEW_ATOMS
  {
    var source := Then(Lit("iceberg."), Then(Ident, Then(Lit("."), Then(Ident, Then(Many(Space, 0), Done)))));
    assert IsLinear(source) && AtomsOf(source) == [Lit("iceberg."), Ident, Lit("."), Ident, Many(Space, 0)];
    var body := AnyText(Then(Edge, W("from", source)));
    assert IsLinear(body)
      && AtomsOf(body) == [Many(Any, 0), Edge, Lit("from"), Many(Space, 1)] + AtomsOf(source);
    assert VIEW_TAIL == W("as", W("select", body));
    assert IsLinear(W("select", body))
      && AtomsOf(W("select", body)) == [Lit("select"), Many(Space, 1)] + AtomsOf(body);
  }

  lemma ViewTailIff(s: string, i: nat)
    requires i <= |s|
    ensures Matches(Gap(VIEW_TAIL), s, i, []) <==> exists v :: IsView(s, v) && v.start == i
  {
    ViewAtoms();
    if Matches(Gap(VIEW_TAIL), s, i, []) {
      var q := MatchIsChain(Gap(VIEW_TAIL), s, i);
      var v := ChainIsView(s, q);
    }
    if v :| IsView(s, v) && v.start == i {
      ViewIsChain(s, v);
      ChainIsMatch(Gap(VIEW_TAIL), s, Marks(s, v));
    }
  }

  // ------------------------------------------------ the words of the tail

  lemma LiteralWord(s: string, i: nat, j: nat, text: string)
    requires i <= j <= |s| && Stands(Lit(text), s, i, j)
    ensures LowerAll(s[i..j]) == text
    ensures (forall k :: 0 <= k < |text| ==> IsWordChar(text[k])) ==> forall k :: i <= k < j ==> IsWordChar(s[k])
  {
    assert forall k :: 0 <= k < |text| ==> s[i..j][k] == s[i + k] && Lower(s[i + k]) == text[k];
    if forall k :: 0 <= k < |text| ==> IsWordChar(text[k]) {
      forall k | i <= k < j ensures IsWordChar(s[k]) {
        assert Lower(s[i + (k - i)]) == text[k - i];
      }
    }
  }

  /** White space, a word of letters, and then something outside words. */
  lemma SpacedWord(s: string, i: nat, j: nat, k: nat, word: string)
    requires i <= j <= k <= |s| && Stands(Many(Space, 1), s, i, j) && Stands(Lit(word), s, j, k)
    requires word != "" && (forall c :: 0 <= c < |word| ==> IsWordChar(word[c]))
    requires k == |s| || !IsWordChar(s[k])
    ensures TextWords(s[i..]) == [word] + TextWords(s[k..])
  {
    GapAt(s, i, j);
    LiteralWord(s, j, k, word);
    OneWordAt(s, j, k);
  }

  lemma TwoWords(s: string, i: nat, j: nat, k: nat, l: nat, m: nat)
    requires i <= j <= k <= l <= m < |s| && IsPySpace(s[m])
    requires Stands(Many(Space, 1), s, i, j) && Stands(Lit("as"), s, j, k)
    requires Stands(Many(Space, 1), s, k, l) && Stands(Lit("select"), s, l, m)
    ensures TextWords(s[i..]) == ["as", "select"] + TextWords(s[m..])
  {
    SpacedWord(s, k, l, m, "select");
    assert Stands(Many(Space, 1), s, k, l) && !IsWordChar(s[k]);
    SpacedWord(s, i, j, k, "as");
    assert ["as"] + (["select"] + TextWords(s[m..])) == ["as", "select"] + TextWords(s[m..]);
  }

  /** `as select`, before the free text. */
  lemma SelectWords(s: string, v: View)
    requires IsView(s, v)
    ensures TextWords(s[v.start..]) == ["as", "select"] + TextWords(s[v.selectEnd..])
  {
    ViewStands(s, v);
    TwoWords(s, v.start, v.asAt, v.asEnd, v.selectAt, v.selectEnd);
  }

  /** The free text, up to the last `from`, is set apart by the word boundary. */
  lemma FreeWords(s: string, v: View)
    requires IsView(s, v)
    ensures v.selectEnd < v.fromAt
    ensures TextWords(s[v.selectEnd..]) == TextWords(s[v.selectEnd..v.fromAt]) + TextWords(s[v.fromAt..])
  {
    ViewStands(s, v);
    LiteralWord(s, v.fromAt, v.fromEnd, "from");
    TextAt(s, v.selectEnd, v.fromAt);
  }

  lemma FromWord(s: string, v: View)
    requires IsView(s, v)
    ensures TextWords(s[v.fromAt..]) == ["from"] + TextWords(s[v.sourceAt..])
  {
    ViewStands(s, v);
    LiteralWord(s, v.fromAt, v.fromEnd, "from");
    OneWordAt(s, v.fromAt, v.fromEnd);
    GapAt(s, v.fromEnd, v.sourceAt);
  }

  lemma CatalogWord(s: string, i: nat, j: nat)
    requires i <= j <= |s| && Stands(Lit("iceberg."), s, i, j)
    ensures TextWords(s[i..]) == ["iceberg"] + TextWords(s[j..])
  {
    var word := "iceberg.";
    assert forall k :: 0 <= k < 7 ==> "iceberg"[k] == word[k];
    assert Lower(s[i + 7]) == word[7];
    LiteralWord(s, i, j - 1, "iceberg");
    OneWordAt(s, i, j - 1);
    GapAt(s, j - 1, j);
  }

  /** The schema and the table that a view's source names, in lower case. */
  function SourceSchema(s: string, v: View): string
    requires Ascends(s, v)
  {
    LowerAll(s[v.schemaAt..v.schemaEnd])
  }

  function SourceTable(s: string, v: View): string
    requires Ascends(s, v)
  {
    LowerAll(s[v.tableAt..v.tableEnd])
  }

  lemma NameThenSpace(s: string, i: nat, j: nat)
    requires i <= j <= |s| && Stands(Ident, s, i, j) && Stands(Many(Space, 0), s, j, |s|)
    ensures TextWords(s[i..]) == [LowerAll(s[i..j])]
  {
    OneWordAt(s, i, j);
    GapAt(s, j, |s|);
    assert s[|s|..] == "" && TextWords("") == [];
  }

  lemma NameThenDot(s: string, i: nat, j: nat, k: nat)
    requires i <= j <= k <= |s| && Stands(Ident, s, i, j) && Stands(Lit("."), s, j, k)
    ensures TextWords(s[i..]) == [LowerAll(s[i..j])] + TextWords(s[k..])
  {
    assert Lower(s[j + 0]) == "."[0];
    OneWordAt(s, i, j);
    GapAt(s, j, k);
  }

  lemma SourceWords(s: string, v: View)
    requires IsView(s, v)
    ensures TextWords(s[v.sourceAt..]) == ["iceberg", SourceSchema(s, v), SourceTable(s, v)]
  {
    ViewStands(s, v);
    CatalogWord(s, v.sourceAt, v.schemaAt);
    NameThenDot(s, v.schemaAt, v.schemaEnd, v.tableAt);
    NameThenSpace(s, v.tableAt, v.tableEnd);
  }

  /** From the last `from` on. */
  lemma FromWords(s: string, v: View)
    requires IsView(s, v)
    ensures TextWords(s[v.fromAt..]) == ["from", "iceberg", SourceSchema(s, v), SourceTable(s, v)]
  {
    FromWord(s, v);
    SourceWords(s, v);
  }

  lemma ViewWords(s: string, v: View)
    requires IsView(s, v)
    ensures TextWords(s[v.start..])
         == ["as", "select"] + TextWords(s[v.selectEnd..v.fromAt])
            + ["from", "iceberg", SourceSchema(s, v), SourceTable(s, v)]
  {
    SelectWords(s, v);
    FreeWords(s, v);
    FromWords(s, v);
  }

  /** How often a text holds the whole word `from`. */
  function Froms(t: string): nat {
    multiset(TextWords(t))["from"]
  }

  /** The two words that introduce a table: `from t`, and `table t` for all of `t`. */
  predicate IsTableWord(word: string) {
    word == "from" || word == "table"
  }

  predicate HasTableWord(words: seq<string>) {
    exists w :: w in words && IsTableWord(w)
  }

  function TableWords(t: string): nat {
    multiset(TextWords(t))["from"] + multiset(TextWords(t))["table"]
  }

  /** A view's body has a single FROM exactly when the text between its `select` and its last
      `from` does not hold that word, and its source is not called so; and its last `from` is
      the only word that introduces a table exactly when the text holds neither such word and
      its source is called neither. */
  lemma SingleFromIff(s: string, v: View)
    requires IsView(s, v)
    ensures Froms(s[v.start..]) == 1
       <==> && "from" !in TextWords(s[v.selectEnd..v.fromAt])
            && SourceSchema(s, v) != "from" && SourceTable(s, v) != "from"
    ensures TableWords(s[v.start..]) == 1
       <==> && !HasTableWord(TextWords(s[v.selectEnd..v.fromAt]))
            && !IsTableWord(SourceSchema(s, v)) && !IsTableWord(SourceTable(s, v))
  {
    ViewWords(s, v);
    CountFroms(TextWords(s[v.selectEnd..v.fromAt]), SourceSchema(s, v), SourceTable(s, v));
  }

  lemma CountWord(mid: seq<string>, a: string, b: string, word: string)
    requires IsTableWord(word)
    ensures multiset(["as", "select"] + mid + ["from", "iceberg", a, b])[word]
         == (if word == "from" then 1 else 0) + multiset(mid)[word]
            + (if a == word then 1 else 0) + if b == word then 1 else 0
  {
    assert multiset(["as", "select"] + mid + ["from", "iceberg", a, b])
        == multiset(["as", "select"]) + multiset(mid) + multiset(["from", "iceberg", a, b]);
    assert "as"[0] == 'a' && "select"[0] == 's' && "iceberg"[0] == 'i' && "from"[0] == 'f' && "table"[0] == 't';
  }

  lemma CountFroms(mid: seq<string>, a: string, b: string)
    ensures var count := multiset(["as", "select"] + mid + ["from", "iceberg", a, b]);
      && (count["from"] == 1 <==> "from" !in mid && a != "from" && b != "from")
      && (count["from"] + count["table"] == 1 <==> !HasTableWord(mid) && !IsTableWord(a) && !IsTableWord(b))
  {
    CountWord(mid, a, b, "from");
    CountWord(mid, a, b, "table");
    assert forall w :: w in mid <==> multiset(mid)[w] > 0;
    assert HasTableWord(mid) <==> "from" in mid || "table" in mid;
  }

  // ----------------------------------------------------- through the parser

  /** Every statement that opens as a view of any target and goes on with such a tail is
      accepted and read back with its target. */
  lemma ViewIsRead(schema: string, table: string, s: string, v: View)
    requires IsStatement(s) && Opens(s, HeaderOf(CreateView), schema, table) && IsView(s, v)
    requires v.start == OpeningLength(HeaderOf(CreateView), schema, table)
    ensures ParseStatement(s) == Ok(ParsedWrite(KCreateView, schema, Some(table)))
  {
    ViewTailIff(s, v.start);
    WrittenIsRead(CreateView, schema, table, s);
  }

  lemma {:induction false} HeaderLeaves(words: seq<string>, t: Pattern, s: string, i: nat, caps: seq<string>)
    returns (j: nat)
    requires i <= |s| && Matches(Header(words, t), s, i, caps)
    ensures j <= |s| && Matches(t, s, j, caps)
  {
    if words == [] {
      j := i;
    } else {
      var rest := Header(words[1..], t);
      var k := PieceEnd(W(words[0], rest), s, i, caps);
      var l := PieceEnd(Gap(rest), s, k, caps);
      j := HeaderLeaves(words[1..], t, s, l, caps);
    }
  }

  lemma TargetLeaves(t: Pattern, s: string, i: nat, caps: seq<string>) returns (j: nat)
    requires i <= |s| && |caps| == 2 && Matches(Target(t), s, i, caps)
    ensures j <= |s| && Matches(t, s, j, [])
  {
    var table := Then(Capture, t);
    var dot := Then(Lit("."), table);
    var k := PieceEnd(Target(t), s, i, caps);
    var l := PieceEnd(Then(Capture, dot), s, k, caps);
    var m := PieceEnd(dot, s, l, caps[1..]);
    j := PieceEnd(table, s, m, caps[1..]);
    assert caps[1..][1..] == [];
  }

  /** Every accepted view has such a tail; so its body has a single FROM exactly when the text
      between `select` and the last `from` does not hold that word and the source is not called
      so, and a single word that introduces a table exactly when the text holds none and the
      source is not called by one. */
  lemma AcceptedViewIff(sql: string) returns (v: View)
    requires ParseStatement(sql).Ok? && ParseStatement(sql).value.kind == KCreateView
    ensures var s := SingleStatement(sql).value;
      && IsView(s, v)
      && (Froms(s[v.start..]) == 1
          <==> && "from" !in TextWords(s[v.selectEnd..v.fromAt])
               && SourceSchema(s, v) != "from" && SourceTable(s, v) != "from")
      && (TableWords(s[v.start..]) == 1
          <==> && !HasTableWord(TextWords(s[v.selectEnd..v.fromAt]))
               && !IsTableWord(SourceSchema(s, v)) && !IsTableWord(SourceTable(s, v)))
  {
    var s := SingleStatement(sql).value;
    v := ParsedViewHasTail(s);
    SingleFromIff(s, v);
  }

  lemma ParsedViewHasTail(s: string) returns (v: View)
    requires Parse(s).Ok? && Parse(s).value.kind == KCreateView
    ensures IsView(s, v)
  {
    ParsedHasReading(s);
    var x, caps :| IsReading(s, x, caps, Parse(s).value);
    v := ViewReadingHasTail(s, caps, x);
  }

  lemma ViewReadingHasTail(s: string, caps: seq<string>, x: Shape) returns (v: View)
    requires KindOf(x) == KCreateView && |caps| == 2 && Matches(PatternOf(x), s, 0, caps)
    ensures IsView(s, v)
  {
    var i := HeaderLeaves(HeaderOf(x), TargetOf(x), s, 0, caps);
    var j := TargetLeaves(TailOf(x), s, i, caps);
    ViewTailIff(s, j);
    v :| IsView(s, v) && v.start == j;
  }

  // -------------------------------------------------- a body of any text

  /** The tail of a view with any text before its last `from`. */
  function BodyText(text: string, schema: string, table: string): string {
    " as select " + text + " from iceberg." + schema + "." + table
  }

  function BodyMarks(i: nat, text: string, schema: string, table: string): View {
    var from_ := i + 12 + |text|;
    View(i, i + 1, i + 3, i + 4, i + 10, i + 11, from_, from_ + 4, from_ + 5, from_ + 13,
         from_ + 13 + |schema|, from_ + 14 + |schema|, from_ + 14 + |schema| + |table|)
  }

  lemma LiteralStands(s: string, i: nat, text: string)
    requires IsAt(s, i, text) && forall k :: 0 <= k < |text| ==> Lower(text[k]) == text[k]
    ensures Stands(Lit(text), s, i, i + |text|)
  {
  }

  lemma SpaceStands(s: string, i: nat)
    requires IsAt(s, i, " ")
    ensures Stands(Many(Space, 1), s, i, i + 1)
  {
    assert s[i + 0] == " "[0];
  }

  lemma NameIsThere(s: string, i: nat, name: string)
    requires IsAt(s, i, name) && IsName(name)
    ensures Stands(Ident, s, i, i + |name|)
  {
    assert forall k :: i <= k < i + |name| ==> s[k] == name[k - i];
  }

  lemma SelectStands(s: string, i: nat)
    requires IsAt(s, i, " as select ")
    ensures Stands(Many(Space, 1), s, i, i + 1) && Stands(Lit("as"), s, i + 1, i + 3)
    ensures Stands(Many(Space, 1), s, i + 3, i + 4) && Stands(Lit("select"), s, i + 4, i + 10)
    ensures Stands(Many(Space, 1), s, i + 10, i + 11)
  {
    assert " as select " == " as select" + " " && " as select" == " as " + "select" && " as " == " as" + " ";
    SplitAt(s, i, " as select", " ");
    SplitAt(s, i, " as ", "select");
    SplitAt(s, i, " as", " ");
    assert " as" == " " + "as";
    SplitAt(s, i, " ", "as");
    SpaceStands(s, i);
    LiteralStands(s, i + 1, "as");
    SpaceStands(s, i + 3);
    LiteralStands(s, i + 4, "select");
    SpaceStands(s, i + 10);
  }

  lemma FromStands(s: string, i: nat)
    requires IsAt(s, i, "from iceberg.") && i > 0 && !IsWordChar(s[i - 1])
    ensures AtBoundary(s, i) && Stands(Lit("from"), s, i, i + 4) && Stands(Many(Space, 1), s, i + 4, i + 5)
    ensures Stands(Lit("iceberg."), s, i + 5, i + 13)
  {
    assert "from iceberg." == "from " + "iceberg." && "from " == "from" + " ";
    SplitAt(s, i, "from ", "iceberg.");
    SplitAt(s, i, "from", " ");
    LiteralStands(s, i, "from");
    SpaceStands(s, i + 4);
    LiteralStands(s, i + 5, "iceberg.");
    assert s[i + 0] == "from"[0];
  }

  lemma SourceStands(s: string, i: nat, schema: string, table: string)
    requires IsName(schema) && IsName(table) && IsAt(s, i, schema + "." + table)
    ensures Stands(Ident, s, i, i + |schema|) && Stands(Lit("."), s, i + |schema|, i + |schema| + 1)
    ensures Stands(Ident, s, i + |schema| + 1, i + |schema| + 1 + |table|)
  {
    SplitAt(s, i, schema + ".", table);
    SplitAt(s, i, schema, ".");
    NameIsThere(s, i, schema);
    LiteralStands(s, i + |schema|, ".");
    NameIsThere(s, i + |schema| + 1, table);
  }

  lemma BodySplits(s: string, i: nat, text: string, schema: string, table: string)
    requires IsAt(s, i, BodyText(text, schema, table))
    ensures IsAt(s, i, " as select ") && IsAt(s, i + 11, text + " ")
    ensures IsAt(s, i + 12 + |text|, "from iceberg.") && IsAt(s, i + 25 + |text|, schema + "." + table)
  {
    var head := " as select " + (text + " ");
    assert BodyText(text, schema, table) == head + "from iceberg." + (schema + "." + table);
    SplitAt(s, i, head + "from iceberg.", schema + "." + table);
    SplitAt(s, i, head, "from iceberg.");
    SplitAt(s, i, " as select ", text + " ");
  }

  lemma BodyStands(s: string, i: nat, text: string, schema: string, table: string)
    requires IsName(schema) && IsName(table) && IsAt(s, i, BodyText(text, schema, table))
    requires |s| == i + |BodyText(text, schema, table)|
    ensures Ascends(s, BodyMarks(i, text, schema, table)) && Stood(s, BodyMarks(i, text, schema, table))
    ensures s[i + 11..i + 12 + |text|] == text + " "
  {
    BodySplits(s, i, text, schema, table);
    SelectStands(s, i);
    assert s[i + 11 + |text|] == (text + " ")[|text|];
    FromStands(s, i + 12 + |text|);
    SourceStands(s, i + 25 + |text|, schema, table);
  }

  lemma BodyIsView(s: string, i: nat, text: string, schema: string, table: string)
    requires IsName(schema) && IsName(table) && IsAt(s, i, BodyText(text, schema, table))
    requires |s| == i + |BodyText(text, schema, table)|
    ensures IsView(s, BodyMarks(i, text, schema, table))
    ensures s[i + 11..i + 12 + |text|] == text + " "
  {
    BodyStands(s, i, text, schema, table);
    ViewStands(s, BodyMarks(i, text, schema, table));
  }

  lemma BodyWords(s: string, i: nat, text: string)
    requires i + 1 <= |s| - |text| - 1 && s[i] == ' ' && s[i + 1..i + 2 + |text|] == text + " "
    ensures TextWords(s[i..i + 2 + |text|]) == TextWords(text)
  {
    assert s[i..i + 2 + |text|] == " " + (text + " ");
    GapFirst(" ", text + " ");
    SpaceLast(text);
  }

  lemma SpaceLast(text: string)
    ensures TextWords(text + " ") == TextWords(text)
  {
    LowerSplits(text, " ");
    assert LowerAll(" ") == " ";
    RunsAround(LowerAll(text), " ", "");
    assert LowerAll(text) + (" " + "") == LowerAll(text) + " ";
    assert Runs("", WordChars) == [];
  }

  /** For every text: as the body before the last `from` it is accepted, whatever it is, and
      the body has a single FROM, or a single word that introduces a table, exactly when the
      text does not hold that word, or any such word, and the source is not called so. */
  lemma AnyBodyIsRead(schema: string, table: string, s: string, text: string, a: string, b: string)
    requires IsStatement(s) && Opens(s, HeaderOf(CreateView), schema, table) && IsName(a) && IsName(b)
    requires var i := OpeningLength(HeaderOf(CreateView), schema, table);
      IsAt(s, i, BodyText(text, a, b)) && |s| == i + |BodyText(text, a, b)|
    ensures ParseStatement(s) == Ok(ParsedWrite(KCreateView, schema, Some(table)))
    ensures Froms(s[OpeningLength(HeaderOf(CreateView), schema, table)..]) == 1
       <==> "from" !in TextWords(text) && LowerAll(a) != "from" && LowerAll(b) != "from"
    ensures TableWords(s[OpeningLength(HeaderOf(CreateView), schema, table)..]) == 1
       <==> !HasTableWord(TextWords(text)) && !IsTableWord(LowerAll(a)) && !IsTableWord(LowerAll(b))
  {
    var i := OpeningLength(HeaderOf(CreateView), schema, table);
    var v := BodyMarks(i, text, a, b);
    BodyIsView(s, i, text, a, b);
    ViewIsRead(schema, table, s, v);
    SingleFromIff(s, v);
    BodyParts(s, i, text, a, b);
  }

  lemma BodyNames(s: string, i: nat, text: string, a: string, b: string)
    requires IsAt(s, i, BodyText(text, a, b))
    ensures var n := i + 25 + |text|; IsAt(s, n, a) && IsAt(s, n + |a| + 1, b)
  {
    BodySplits(s, i, text, a, b);
    SplitAt(s, i + 25 + |text|, a + ".", b);
    SplitAt(s, i + 25 + |text|, a, ".");
  }

  lemma BodyParts(s: string, i: nat, text: string, a: string, b: string)
    requires IsName(a) && IsName(b)
    requires IsAt(s, i, BodyText(text, a, b)) && |s| == i + |BodyText(text, a, b)|
    ensures var v := BodyMarks(i, text, a, b);
      && IsView(s, v) && TextWords(s[v.selectEnd..v.fromAt]) == TextWords(text)
      && SourceSchema(s, v) == LowerAll(a) && SourceTable(s, v) == LowerAll(b)
  {
    BodyIsView(s, i, text, a, b);
    assert s[i + 10] == BodyText(text, a, b)[10];
    BodyWords(s, i + 10, text);
    BodyNames(s, i, text, a, b);
    var v := BodyMarks(i, text, a, b);
    assert s[v.schemaAt..v.schemaEnd] == a && s[v.tableAt..v.tableEnd] == b;
  }
}
