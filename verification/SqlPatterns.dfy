/** The fragment of regular expressions the write guard uses, as a relation (what a full match
    is) and as Python's backtracking search (how one is found). */
module SqlPatterns {
  import opened Prelude
  import opened TextRuns

  datatype Class = Space | Any | Digit | Letter | DayOrHour | BatchChar

  predicate InClass(c: char, cls: Class) {
    match cls
    case Space => IsPySpace(c)
    case Any => true
    case Digit => '0' <= c <= '9'
    case Letter => 'a' <= Lower(c) <= 'z'
    case DayOrHour => Lower(c) == 'd' || Lower(c) == 'h'
    case BatchChar => 'a' <= Lower(c) <= 'z' || '0' <= c <= '9' || c in "_.:-"
  }

  datatype Atom =
    | Lit(text: string)                       // literal text, in any case
    | Span(cls: Class, min: nat, max: nat)    // cls{min,max}
    | Many(cls: Class, min: nat)              // cls* or cls+
    | Ident                                   // [a-z_][a-z0-9_]*
    | Capture                                 // ([a-z_][a-z0-9_]*)
    | Edge                                    // \b

  datatype Pattern =
    | Done
    | Then(atom: Atom, rest: Pattern)
    | Maybe(part: Pattern, rest: Pattern)            // (part)? rest

  function Append(p: Pattern, q: Pattern): (r: Pattern)
    ensures Size(r) == Size(p) + Size(q)
  {
    match p
    case Done => q
    case Then(a, t) => Then(a, Append(t, q))
    case Maybe(m, t) => Maybe(m, Append(t, q))
  }

  function Size(p: Pattern): nat {
    match p
    case Done => 0
    case Then(_, t) => 1 + Size(t)
    case Maybe(m, t) => 1 + Size(m) + Size(t)
  }

  predicate IsIdentChar(c: char) {
    'a' <= Lower(c) <= 'z' || '0' <= c <= '9' || c == '_'
  }

  /** `s[i..j]` is what the atom stands for, in the context of the whole text. */
  predicate Stands(a: Atom, s: string, i: nat, j: nat)
    requires i <= j <= |s|
  {
    match a
    case Lit(t) => j - i == |t| && forall k :: 0 <= k < |t| ==> Lower(s[i + k]) == t[k]
    case Span(cls, min, max) => min <= j - i <= max && forall k :: i <= k < j ==> InClass(s[k], cls)
    case Many(cls, min) => min <= j - i && forall k :: i <= k < j ==> InClass(s[k], cls)
    case Ident => IsIdent(s, i, j)
    case Capture => IsIdent(s, i, j)
    case Edge => i == j && AtBoundary(s, i)
  }

  predicate IsIdent(s: string, i: nat, j: nat)
    requires i <= j <= |s|
  {
    i < j && !('0' <= s[i] <= '9') && forall k :: i <= k < j ==> IsIdentChar(s[k])
  }

  function Caught(a: Atom, piece: string): seq<string> {
    if a.Capture? then [piece] else []
  }

  /** `s[i..]` is in the language of the pattern, with these captures. */
  ghost predicate Matches(p: Pattern, s: string, i: nat, caps: seq<string>)
    requires i <= |s|
    decreases Size(p), 0
  {
    match p
    case Done => i == |s| && caps == []
    case Then(a, t) => exists j: nat :: MatchesVia(a, t, s, i, j, caps)
    case Maybe(m, t) => Matches(t, s, i, caps) || Matches(Append(m, t), s, i, caps)
  }

  ghost predicate MatchesVia(a: Atom, t: Pattern, s: string, i: nat, j: nat, caps: seq<string>)
    decreases Size(t), 1
  {
    && i <= j <= |s| && Stands(a, s, i, j)
    && |Caught(a, s[i..j])| <= |caps| && Caught(a, s[i..j]) == caps[..|Caught(a, s[i..j])|]
    && Matches(t, s, j, caps[|Caught(a, s[i..j])|..])
  }

  // ------------------------------------------------------ the search itself

  /** Full match from `i` on: greedy, longest piece first, backtracking. */
  function Search(p: Pattern, s: string, i: nat): Option<seq<string>>
    requires i <= |s|
    decreases Size(p), |s| + 1
  {
    match p
    case Done => if i == |s| then Some([]) else None
    case Then(a, t) => SearchVia(a, t, s, i, |s|)
    case Maybe(m, t) =>
      var taken := Search(Append(m, t), s, i);
      if taken.Some? then taken else Search(t, s, i)
  }

  function SearchVia(a: Atom, t: Pattern, s: string, i: nat, j: nat): Option<seq<string>>
    requires i <= j <= |s|
    decreases Size(t) + 1, j
  {
    var rest := if Stands(a, s, i, j) then Search(t, s, j) else None;
    if rest.Some? then Some(Caught(a, s[i..j]) + rest.value)
    else if i < j then SearchVia(a, t, s, i, j - 1)
    else None
  }

  /** The search finds a match that is one, and finds one whenever there is one. */
  lemma {:induction false} SearchIsSound(p: Pattern, s: string, i: nat)
    requires i <= |s|
    ensures Search(p, s, i).Some? ==> Matches(p, s, i, Search(p, s, i).value)
    decreases Size(p), |s| + 1
  {
    match p
    case Done =>
    case Then(a, t) => SearchViaIsSound(a, t, s, i, |s|);
    case Maybe(m, t) =>
      SearchIsSound(Append(m, t), s, i);
      SearchIsSound(t, s, i);
  }

  lemma {:induction false} SearchViaIsSound(a: Atom, t: Pattern, s: string, i: nat, j: nat)
    requires i <= j <= |s|
    ensures var r := SearchVia(a, t, s, i, j); r.Some? ==> exists k: nat :: MatchesVia(a, t, s, i, k, r.value)
    decreases Size(t) + 1, j
  {
    SearchIsSound(t, s, j);
    var rest := if Stands(a, s, i, j) then Search(t, s, j) else None;
    if rest.Some? {
      assert MatchesVia(a, t, s, i, j, Caught(a, s[i..j]) + rest.value);
    } else if i < j {
      SearchViaIsSound(a, t, s, i, j - 1);
    }
  }

  lemma {:induction false} SearchIsComplete(p: Pattern, s: string, i: nat, caps: seq<string>)
    requires i <= |s| && Matches(p, s, i, caps)
    ensures Search(p, s, i).Some?
    decreases Size(p), |s| + 1
  {
    match p
    case Done =>
    case Then(a, t) =>
      var j: nat :| MatchesVia(a, t, s, i, j, caps);
      SearchViaIsComplete(a, t, s, i, |s|, j, caps);
    case Maybe(m, t) =>
      if Matches(t, s, i, caps) {
        SearchIsComplete(t, s, i, caps);
      } else {
        SearchIsComplete(Append(m, t), s, i, caps);
      }
  }

  lemma {:induction false} SearchViaIsComplete(a: Atom, t: Pattern, s: string, i: nat, j: nat, k: nat,
                                                 caps: seq<string>)
    requires i <= k <= j <= |s| && MatchesVia(a, t, s, i, k, caps)
    ensures SearchVia(a, t, s, i, j).Some?
    decreases Size(t) + 1, j
  {
    if k == j {
      SearchIsComplete(t, s, j, caps[|Caught(a, s[i..j])|..]);
    } else {
      SearchViaIsComplete(a, t, s, i, j - 1, k, caps);
    }
  }

  // ----------------------------- what two patterns can both match

  predicate Clash(a: string, b: string) {
    a != "" && b != "" && (a[0] != b[0] || Clash(a[1..], b[1..]))
  }

  predicate StartsBlack(p: Pattern) {
    p.Then? && p.atom.Lit? && p.atom.text != "" && !IsPySpace(p.atom.text[0])
  }

  /** Whatever matches cannot start with an identifier character. */
  predicate StopsIdent(p: Pattern) {
    match p
    case Done => true
    case Then(a, _) => (a.Lit? && a.text != "" && !IsIdentChar(a.text[0])) || a == Many(Space, 1)
    case Maybe(m, t) => m.Then? && StopsIdent(m) && StopsIdent(t)
  }

  predicate NoCaptures(p: Pattern) {
    match p
    case Done => true
    case Then(a, t) => !a.Capture? && NoCaptures(t)
    case Maybe(m, t) => NoCaptures(m) && NoCaptures(t)
  }

  /** The first pieces of two matches of the same text must be the same. */
  predicate InStep(p: Pattern, q: Pattern) {
    && p.Then? && q.Then? && p.atom == q.atom
    && match p.atom
       case Lit(_) => true
       case Many(cls, min) => cls == Space && StartsBlack(p.rest) && StartsBlack(q.rest)
       case Capture => StopsIdent(p.rest) && StopsIdent(q.rest)
       case _ => false
  }

  /** A syntactic test that no text matches both patterns. */
  predicate Apart(p: Pattern, q: Pattern) {
    || (p.Then? && q.Then? && p.atom.Lit? && q.atom.Lit? && Clash(p.atom.text, q.atom.text))
    || (InStep(p, q) && Apart(p.rest, q.rest))
  }

  /** A syntactic test that a text matching both patterns gives both the same captures. */
  predicate Agree(p: Pattern, q: Pattern) {
    || (NoCaptures(p) && NoCaptures(q))
    || (InStep(p, q) && Agree(p.rest, q.rest))
  }

  lemma {:induction false} ClashAt(a: string, b: string) returns (k: nat)
    requires Clash(a, b)
    ensures k < |a| && k < |b| && a[k] != b[k]
  {
    k := 0;
    if a[0] == b[0] {
      var n := ClashAt(a[1..], b[1..]);
      k := n + 1;
    }
  }

  lemma {:induction false} AppendNoCaptures(p: Pattern, q: Pattern)
    ensures NoCaptures(Append(p, q)) <==> NoCaptures(p) && NoCaptures(q)
  {
    match p
    case Done =>
    case Then(_, t) => AppendNoCaptures(t, q);
    case Maybe(_, t) => AppendNoCaptures(t, q);
  }

  lemma {:induction false} NothingCaptured(p: Pattern, s: string, i: nat, caps: seq<string>)
    requires i <= |s| && NoCaptures(p) && Matches(p, s, i, caps)
    ensures caps == []
    decreases Size(p)
  {
    match p
    case Done =>
    case Then(a, t) =>
      var j: nat :| MatchesVia(a, t, s, i, j, caps);
      NothingCaptured(t, s, j, caps);
    case Maybe(m, t) =>
      if Matches(t, s, i, caps) {
        NothingCaptured(t, s, i, caps);
      } else {
        AppendNoCaptures(m, t);
        NothingCaptured(Append(m, t), s, i, caps);
      }
  }

  lemma BlackIsNext(p: Pattern, s: string, i: nat, caps: seq<string>)
    requires i <= |s| && StartsBlack(p) && Matches(p, s, i, caps)
    ensures i < |s| && !IsPySpace(s[i])
  {
    var j := PieceEnd(p, s, i, caps);
    assert Lower(s[i + 0]) == p.atom.text[0];
  }

  lemma {:induction false} IdentStops(p: Pattern, s: string, i: nat, caps: seq<string>)
    requires i <= |s| && StopsIdent(p) && Matches(p, s, i, caps)
    ensures i == |s| || !IsIdentChar(s[i])
    decreases Size(p)
  {
    match p
    case Done =>
    case Then(a, t) =>
      var j: nat :| MatchesVia(a, t, s, i, j, caps);
      assert a.Lit? ==> Lower(s[i + 0]) == a.text[0];
    case Maybe(m, t) =>
      if Matches(t, s, i, caps) {
        IdentStops(t, s, i, caps);
      } else {
        IdentStops(Append(m, t), s, i, caps);
      }
  }

  lemma SameFirstPiece(p: Pattern, q: Pattern, s: string, i: nat, c: seq<string>, d: seq<string>, j: nat, k: nat)
    requires InStep(p, q)
    requires MatchesVia(p.atom, p.rest, s, i, j, c) && MatchesVia(q.atom, q.rest, s, i, k, d)
    ensures j == k
  {
    var x := Caught(p.atom, s[i..j]);
    var y := Caught(q.atom, s[i..k]);
    match p.atom
    case Lit(_) =>
    case Many(_, _) =>
      BlackIsNext(p.rest, s, j, c[|x|..]);
      BlackIsNext(q.rest, s, k, d[|y|..]);
    case Capture =>
      IdentStops(p.rest, s, j, c[|x|..]);
      IdentStops(q.rest, s, k, d[|y|..]);
  }

  lemma PieceEnd(p: Pattern, s: string, i: nat, c: seq<string>) returns (j: nat)
    requires i <= |s| && p.Then? && Matches(p, s, i, c)
    ensures MatchesVia(p.atom, p.rest, s, i, j, c)
  {
    j :| MatchesVia(p.atom, p.rest, s, i, j, c);
  }

  lemma LiteralsClash(a: string, b: string, s: string, i: nat, j: nat, k: nat)
    requires i <= j <= |s| && i <= k <= |s| && Clash(a, b)
    ensures !(Stands(Lit(a), s, i, j) && Stands(Lit(b), s, i, k))
  {
    var n := ClashAt(a, b);
    assert a[n] != b[n];
  }

  lemma {:induction false} ApartIsSound(p: Pattern, q: Pattern, s: string, i: nat, c: seq<string>, d: seq<string>)
    requires i <= |s| && Apart(p, q)
    ensures !(Matches(p, s, i, c) && Matches(q, s, i, d))
  {
    if Matches(p, s, i, c) && Matches(q, s, i, d) {
      var j := PieceEnd(p, s, i, c);
      var k := PieceEnd(q, s, i, d);
      if InStep(p, q) && Apart(p.rest, q.rest) {
        SameFirstPiece(p, q, s, i, c, d, j, k);
        var n := |Caught(p.atom, s[i..j])|;
        ApartIsSound(p.rest, q.rest, s, j, c[n..], d[n..]);
      } else {
        LiteralsClash(p.atom.text, q.atom.text, s, i, j, k);
      }
    }
  }

  lemma {:induction false} AgreeIsSound(p: Pattern, q: Pattern, s: string, i: nat, c: seq<string>, d: seq<string>)
    requires i <= |s| && Agree(p, q) && Matches(p, s, i, c) && Matches(q, s, i, d)
    ensures c == d
  {
    if NoCaptures(p) && NoCaptures(q) {
      NothingCaptured(p, s, i, c);
      NothingCaptured(q, s, i, d);
    } else {
      var j := PieceEnd(p, s, i, c);
      var k := PieceEnd(q, s, i, d);
      SameFirstPiece(p, q, s, i, c, d, j, k);
      var x := Caught(p.atom, s[i..j]);
      AgreeIsSound(p.rest, q.rest, s, j, c[|x|..], d[|x|..]);
      assert c == x + c[|x|..] && d == x + d[|x|..];
    }
  }

  lemma Step(p: Pattern, q: Pattern)
    requires InStep(p, q)
    ensures Apart(p.rest, q.rest) ==> Apart(p, q)
    ensures Agree(p.rest, q.rest) ==> Agree(p, q)
  {
  }

  lemma {:induction false} ApartIsSymmetric(p: Pattern, q: Pattern)
    requires Apart(p, q)
    ensures Apart(q, p)
  {
    if InStep(p, q) && Apart(p.rest, q.rest) {
      ApartIsSymmetric(p.rest, q.rest);
    } else {
      ClashIsSymmetric(p.atom.text, q.atom.text);
    }
  }

  lemma {:induction false} ClashIsSymmetric(a: string, b: string)
    requires Clash(a, b)
    ensures Clash(b, a)
  {
    if a[0] == b[0] {
      ClashIsSymmetric(a[1..], b[1..]);
    }
  }

  /** The number of captures of a pattern whose optional parts capture nothing. */
  function Captures(p: Pattern): nat {
    match p
    case Done => 0
    case Then(a, t) => (if a.Capture? then 1 else 0) + Captures(t)
    case Maybe(_, t) => Captures(t)
  }

  lemma {:induction false} CountsCaptures(p: Pattern, s: string, i: nat, caps: seq<string>)
    requires i <= |s| && Matches(p, s, i, caps) && OptionsCaptureNothing(p)
    ensures |caps| == Captures(p)
    decreases Size(p)
  {
    match p
    case Done =>
    case Then(a, t) =>
      var j := PieceEnd(p, s, i, caps);
      CountsCaptures(t, s, j, caps[|Caught(a, s[i..j])|..]);
    case Maybe(m, t) =>
      if Matches(t, s, i, caps) {
        CountsCaptures(t, s, i, caps);
      } else {
        AppendCounts(m, t);
        CountsCaptures(Append(m, t), s, i, caps);
      }
  }

  predicate OptionsCaptureNothing(p: Pattern) {
    match p
    case Done => true
    case Then(_, t) => OptionsCaptureNothing(t)
    case Maybe(m, t) => NoCaptures(m) && OptionsCaptureNothing(t)
  }

  lemma {:induction false} AppendCounts(m: Pattern, t: Pattern)
    requires NoCaptures(m) && OptionsCaptureNothing(t)
    ensures OptionsCaptureNothing(Append(m, t)) && Captures(Append(m, t)) == Captures(t)
  {
    match m
    case Done =>
    case Then(_, r) => AppendCounts(r, t);
    case Maybe(_, r) => AppendCounts(r, t);
  }

  lemma {:induction false} NoneToCount(p: Pattern)
    requires NoCaptures(p)
    ensures Captures(p) == 0 && OptionsCaptureNothing(p)
  {
    match p
    case Done =>
    case Then(_, t) => NoneToCount(t);
    case Maybe(_, t) => NoneToCount(t);
  }
}
