/** Reading a statement by positions: words in any case, white space, names. The vocabulary in
    which the accepted statements are described (query-tool/execute_guard.py). */
module SqlText {
  import opened Prelude
  import opened TextRuns

  /** `s[i..j]` is the lower-case text `word`, in any case. */
  predicate Says(s: string, i: nat, j: nat, word: string) {
    j == i + |word| <= |s| && forall k :: 0 <= k < |word| ==> Lower(s[i + k]) == word[k]
  }

  /** White space, possibly none. */
  predicate Blanks(s: string, i: nat, j: nat) {
    i <= j <= |s| && forall k :: i <= k < j ==> IsPySpace(s[k])
  }

  /** White space, at least one character. */
  predicate Blank(s: string, i: nat, j: nat) {
    i < j && Blanks(s, i, j)
  }

  /** A bare identifier: letters, digits and bars, not starting with a digit. */
  predicate Name(s: string, i: nat, j: nat) {
    i < j <= |s| && !('0' <= s[i] <= '9') && forall k :: i <= k < j ==> IsWordChar(s[k])
  }

  /** The word stands alone from `i` on: no word character next to it. */
  predicate Word(s: string, i: nat, word: string) {
    var j := i + |word|;
    Says(s, i, j, word) && (i == 0 || !IsWordChar(s[i - 1])) && (j == |s| || !IsWordChar(s[j]))
  }

  /** The word, and white space behind it up to `j`. */
  predicate Lead(s: string, i: nat, j: nat, word: string) {
    Says(s, i, i + |word|, word) && Blank(s, i + |word|, j)
  }

  /** Word `k` stands from `at[k]` on, and white space behind it up to `at[k + 1]`. */
  predicate Spelt(s: string, at: seq<nat>, words: seq<string>) {
    |at| == |words| + 1 && forall k :: 0 <= k < |words| ==> Lead(s, at[k], at[k + 1], words[k])
  }

  /** The words, each followed by white space. */
  ghost predicate Spells(s: string, i: nat, j: nat, words: seq<string>) {
    exists at: seq<nat> :: Spelt(s, at, words) && at[0] == i && at[|words|] == j
  }

  /** `iceberg.` and a schema. */
  predicate Schema(s: string, i: nat, j: nat, schema: string) {
    && Says(s, i, i + 8, "iceberg.") && Name(s, i + 8, j) && s[i + 8..j] == schema
  }

  /** `iceberg.`, a schema, a dot and a table. */
  predicate Table(s: string, i: nat, j: nat, schema: string, table: string) {
    var dot := i + 8 + |schema|;
    Schema(s, i, dot, schema) && dot < |s| && s[dot] == '.' && Name(s, dot + 1, j) && s[dot + 1..j] == table
  }

  // ------------------------------------------------------------ the tails

  /** `select` and any text. */
  predicate Select(s: string, i: nat) {
    Says(s, i, i + 6, "select") && (i + 6 == |s| || !IsWordChar(s[i + 6]))
  }

  /** `as select` and any text. */
  ghost predicate AsSelect(s: string, i: nat) {
    exists a: nat, b: nat :: Blank(s, i, a) && Lead(s, a, b, "as") && Select(s, b)
  }

  /** Where the parts of a view's tail stand; `fromAt` is the last `from`. */
  datatype View = View(start: nat, asAt: nat, asEnd: nat, selectAt: nat, selectEnd: nat, textAt: nat,
                       fromAt: nat, fromEnd: nat, sourceAt: nat, schemaAt: nat, schemaEnd: nat,
                       tableAt: nat, tableEnd: nat)

  predicate Ascends(s: string, v: View) {
    && v.start <= v.asAt <= v.asEnd <= v.selectAt <= v.selectEnd <= v.textAt <= v.fromAt <= v.fromEnd
    && v.fromEnd <= v.sourceAt <= v.schemaAt <= v.schemaEnd <= v.tableAt <= v.tableEnd <= |s|
  }

  /** `as select`, any text, and a last `from iceberg.schema.table` at a word boundary. */
  predicate IsView(s: string, v: View) {
    && Ascends(s, v)
    && Blank(s, v.start, v.asAt) && Says(s, v.asAt, v.asEnd, "as")
    && Blank(s, v.asEnd, v.selectAt) && Says(s, v.selectAt, v.selectEnd, "select")
    && Blank(s, v.selectEnd, v.textAt) && AtBoundary(s, v.fromAt) && Says(s, v.fromAt, v.fromEnd, "from")
    && Blank(s, v.fromEnd, v.sourceAt) && Says(s, v.sourceAt, v.schemaAt, "iceberg.")
    && Name(s, v.schemaAt, v.schemaEnd) && Says(s, v.schemaEnd, v.tableAt, ".") && Name(s, v.tableAt, v.tableEnd)
    && Blanks(s, v.tableEnd, |s|)
  }

  /** Where the parts of a batch predicate stand. */
  datatype Batch = Batch(start: nat, whereAt: nat, columnAt: nat, equalsAt: nat, quoteAt: nat)

  predicate IsBatchIdChar(c: char) {
    || 'a' <= c <= 'z' || 'A' <= c <= 'Z' || '0' <= c <= '9'
    || c == '_' || c == '.' || c == ':' || c == '-'
  }

  /** `where _batch_id = '…'` up to the end, the literal being a non-empty run of letters,
      digits, bars, dots, colons and hyphens; white space is optional around the sign only. */
  predicate IsBatch(s: string, b: Batch) {
    var column, last := b.columnAt + 9, |s| - 1;
    && Blank(s, b.start, b.whereAt) && Says(s, b.whereAt, b.whereAt + 5, "where")
    && Blank(s, b.whereAt + 5, b.columnAt) && Says(s, b.columnAt, column, "_batch_id")
    && Blanks(s, column, b.equalsAt) && b.equalsAt < |s| && s[b.equalsAt] == '='
    && Blanks(s, b.equalsAt + 1, b.quoteAt) && b.quoteAt + 1 < last
    && s[b.quoteAt] == '\'' && s[last] == '\''
    && forall k :: b.quoteAt < k < last ==> IsBatchIdChar(s[k])
  }

  /** An optional name for the target, with or without `as`. */
  ghost predicate Alias(s: string, i: nat, j: nat) {
    || i == j
    || (exists a: nat :: Blank(s, i, a) && (Name(s, a, j) || exists b: nat :: Lead(s, a, b, "as") && Name(s, b, j)))
  }

  /** `using`, any text, `on` as a word, any text, `when` as a word, any text. */
  ghost predicate Using(s: string, i: nat) {
    exists a: nat, b: nat, on: nat, when: nat ::
      && Blank(s, i, a) && Lead(s, a, b, "using")
      && b <= on && Word(s, on, "on") && on + 2 <= when && Word(s, when, "when")
  }

  ghost predicate IsMerge(s: string, i: nat) {
    exists j: nat :: Alias(s, i, j) && Using(s, j)
  }

  datatype Setting = Retention | FileSize

  function SettingName(setting: Setting): string {
    match setting
    case Retention => "retention_threshold"
    case FileSize => "file_size_threshold"
  }

  /** `d` or `h` for a retention, one to three letters for a size, in any case. */
  predicate Unit(s: string, i: nat, j: nat, setting: Setting) {
    && i < j < |s|
    && match setting
       case Retention => j == i + 1 && (Lower(s[i]) == 'd' || Lower(s[i]) == 'h')
       case FileSize => j <= i + 3 && forall k :: i <= k < j ==> 'a' <= Lower(s[k]) <= 'z'
  }

  /** Digits and a unit between quotes, then a closing bracket and the end. */
  predicate Quantity(s: string, i: nat, unitAt: nat, unitEnd: nat, setting: Setting) {
    && i < |s| && s[i] == '\'' && i + 1 < unitAt < |s| && (forall k :: i < k < unitAt ==> '0' <= s[k] <= '9')
    && Unit(s, unitAt, unitEnd, setting) && s[unitEnd] == '\''
    && s[|s| - 1] == ')' && Blanks(s, unitEnd + 1, |s| - 1)
  }

  /** The name, an arrow, a quantity and the end. */
  predicate Assigns(s: string, i: nat, arrowAt: nat, quoteAt: nat, unitAt: nat, unitEnd: nat, setting: Setting) {
    var name := i + |SettingName(setting)|;
    && Says(s, i, name, SettingName(setting)) && Blanks(s, name, arrowAt) && Says(s, arrowAt, arrowAt + 2, "=>")
    && Blanks(s, arrowAt + 2, quoteAt) && Quantity(s, quoteAt, unitAt, unitEnd, setting)
  }

  /** Where the parts of a threshold stand. */
  datatype Bound = Bound(start: nat, openAt: nat, nameAt: nat, arrowAt: nat, quoteAt: nat, unitAt: nat, unitEnd: nat)

  /** `( name => 'digits and unit' )` up to the end, with optional white space around the signs. */
  predicate IsBound(s: string, b: Bound, setting: Setting) {
    && Blanks(s, b.start, b.openAt) && b.openAt < |s| && s[b.openAt] == '(' && Blanks(s, b.openAt + 1, b.nameAt)
    && Assigns(s, b.nameAt, b.arrowAt, b.quoteAt, b.unitAt, b.unitEnd, setting)
  }

  ghost predicate HasBound(s: string, i: nat, setting: Setting) {
    exists b: Bound :: b.start == i && IsBound(s, b, setting)
  }

  ghost predicate Executes(s: string, i: nat, j: nat, procedure: string) {
    exists a: nat, b: nat :: Blank(s, i, a) && Lead(s, a, b, "execute") && Says(s, b, j, procedure)
  }

  /** `execute expire_snapshots` with a retention threshold. */
  ghost predicate IsExpire(s: string, i: nat) {
    exists j: nat :: Executes(s, i, j, "expire_snapshots") && HasBound(s, j, Retention)
  }

  /** `execute optimize`, bare or with a file size threshold. */
  ghost predicate IsOptimize(s: string, i: nat) {
    exists j: nat :: Executes(s, i, j, "optimize") && (j == |s| || HasBound(s, j, FileSize))
  }
}
