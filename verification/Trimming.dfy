/** What Python's `str.strip` removes and what it leaves. */
module Trimming {
  import opened Prelude

  predicate AllSpace(s: string) {
    AllOf(s, PySpaces)
  }

  predicate IsTrimmed(s: string) {
    s != "" && !IsPySpace(s[0]) && !IsPySpace(s[|s| - 1])
  }

  lemma LeftSpace(s: string) returns (a: string)
    ensures s == a + StripLeft(s, PySpaces) && AllSpace(a)
  {
    a := s[..RunLength(s, PySpaces)];
  }

  lemma RightSpace(s: string) returns (b: string)
    ensures s == StripRight(s, PySpaces) + b && AllSpace(b)
  {
    b := s[KeptLength(s, PySpaces)..];
  }

  lemma StripPadded(a: string, s: string, b: string)
    requires AllSpace(a) && AllSpace(b) && IsTrimmed(s)
    ensures PyStrip(a + (s + b)) == s
  {
    StripLeftPadded(a, s + b, PySpaces);
    StripRightPadded(s, b, PySpaces);
  }

  lemma StripIsTrimmed(sql: string) returns (a: string, b: string)
    ensures sql == a + (PyStrip(sql) + b) && AllSpace(a) && AllSpace(b)
    ensures PyStrip(sql) != "" ==> IsTrimmed(PyStrip(sql))
  {
    a := LeftSpace(sql);
    b := RightSpace(StripLeft(sql, PySpaces));
  }
}
