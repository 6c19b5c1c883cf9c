/** Small vocabulary shared by the models: optional values, results, and the
    character classes of the source languages, restricted to ASCII. */
module Prelude {

  datatype Option<+T> = None | Some(value: T)

  datatype Result<+T, +E> = Ok(value: T) | Err(error: E)

  /** ASCII characters that Python's `str.strip` and `\s` treat as white space. */
  predicate IsPySpace(c: char) {
    '\t' <= c <= '\r' || '\U{1C}' <= c <= ' '
  }

  predicate IsWordChar(c: char) {
    'a' <= c <= 'z' || 'A' <= c <= 'Z' || '0' <= c <= '9' || c == '_'
  }

  predicate IsLetter(c: char) {
    'a' <= c <= 'z'
  }

  predicate IsAlnum(c: char) {
    'a' <= c <= 'z' || '0' <= c <= '9'
  }

  predicate IsGap(c: char) {
    !IsAlnum(c)
  }

  predicate IsBar(c: char) {
    c == '_'
  }

  predicate IsPad(c: char) {
    c == '='
  }

  predicate IsBlack(c: char) {
    !IsPySpace(c)
  }

  /** The classes of characters that texts are stripped of or cut into. */
  datatype CharClass = PySpaces | Blacks | WordChars | Letters | Alnums | Gaps | Bars | Pads

  predicate Is(c: char, cls: CharClass) {
    match cls
    case PySpaces => IsPySpace(c)
    case Blacks => IsBlack(c)
    case WordChars => IsWordChar(c)
    case Letters => IsLetter(c)
    case Alnums => IsAlnum(c)
    case Gaps => IsGap(c)
    case Bars => IsBar(c)
    case Pads => IsPad(c)
  }

  function Lower(c: char): char {
    if 'A' <= c <= 'Z' then (c as int + 32) as char else c
  }

  function LowerAll(s: string): (r: string)
    ensures |r| == |s|
    ensures forall i :: 0 <= i < |s| ==> r[i] == Lower(s[i])
  {
    seq(|s|, i requires 0 <= i < |s| => Lower(s[i]))
  }

  const CAPITALS: string := "ABCDEFGHIJKLMNOPQRSTUVWXYZ"
  const SMALLS: string := "abcdefghijklmnopqrstuvwxyz"
  const FIGURES: string := "0123456789"

  /** The white space of Python, by its codes. */
  lemma PySpacesAre(c: char)
    ensures IsPySpace(c) <==> c as int in {9, 10, 11, 12, 13, 28, 29, 30, 31, 32}
  {
  }

  /** Each capital letter has its small one; everything else is left. */
  lemma LowersAre(d: int, c: char)
    requires 0 <= d < 26
    ensures |CAPITALS| == 26 == |SMALLS| && Lower(CAPITALS[d]) == SMALLS[d]
    ensures c !in CAPITALS ==> Lower(c) == c
  {
    if 'A' <= c <= 'Z' {
      assert CAPITALS[c as int - 'A' as int] == c;
    }
  }

  /** The length of the longest run of the class at the start. */
  function RunLength(s: string, cls: CharClass): (n: nat)
    ensures n <= |s|
    ensures forall i :: 0 <= i < n ==> Is(s[i], cls)
    ensures n < |s| ==> !Is(s[n], cls)
  {
    if s == "" || !Is(s[0], cls) then 0 else 1 + RunLength(s[1..], cls)
  }

  /** The length without the longest run of the class at the end. */
  function KeptLength(s: string, cls: CharClass): (n: nat)
    ensures n <= |s|
    ensures forall i :: n <= i < |s| ==> Is(s[i], cls)
    ensures n > 0 ==> !Is(s[n - 1], cls)
  {
    if s != "" && Is(s[|s| - 1], cls) then KeptLength(s[..|s| - 1], cls) else |s|
  }

  function StripLeft(s: string, drop: CharClass): string {
    s[RunLength(s, drop)..]
  }

  function StripRight(s: string, drop: CharClass): string {
    s[..KeptLength(s, drop)]
  }

  function Strip(s: string, drop: CharClass): string {
    StripRight(StripLeft(s, drop), drop)
  }

  function PyStrip(s: string): string {
    Strip(s, PySpaces)
  }

  predicate AllOf(s: string, cls: CharClass) {
    forall i :: 0 <= i < |s| ==> Is(s[i], cls)
  }

  lemma StripLeftPadded(a: string, t: string, cls: CharClass)
    requires AllOf(a, cls) && (t == "" || !Is(t[0], cls))
    ensures StripLeft(a + t, cls) == t
  {
    var s, n := a + t, RunLength(a + t, cls);
    assert forall i :: 0 <= i < |a| ==> s[i] == a[i];
    assert t != "" ==> s[|a|] == t[0];
    assert n == |a|;
  }

  lemma StripRightPadded(t: string, b: string, cls: CharClass)
    requires AllOf(b, cls) && (t == "" || !Is(t[|t| - 1], cls))
    ensures StripRight(t + b, cls) == t
  {
    var s, n := t + b, KeptLength(t + b, cls);
    assert forall i :: |t| <= i < |s| ==> s[i] == b[i - |t|];
    assert t != "" ==> s[|t| - 1] == t[|t| - 1];
    assert n == |t|;
  }
}
