/** Maximal runs of a character class, the words of a text. */
module TextRuns {
  import opened Prelude

  /** `\b` at position `i`. */
  predicate AtBoundary(s: string, i: nat)
    requires i <= |s|
  {
    (0 < i && IsWordChar(s[i - 1])) != (i < |s| && IsWordChar(s[i]))
  }

  /** The maximal runs of `cls`, from left to right. */
  function Runs(s: string, cls: CharClass): seq<string> {
    if s == "" then []
    else
      var n := RunLength(s, cls);
      if n == 0 then Runs(s[1..], cls) else [s[..n]] + Runs(s[n..], cls)
  }

  lemma {:induction false} RunsAreRuns(s: string, cls: CharClass)
    ensures forall w :: w in Runs(s, cls) ==> w != "" && forall i :: 0 <= i < |w| ==> Is(w[i], cls)
  {
    if s != "" {
      var n := RunLength(s, cls);
      RunsAreRuns(if n == 0 then s[1..] else s[n..], cls);
    }
  }

  /** Leading characters outside the class do not matter. */
  lemma {:induction false} RunsSkipPrefix(a: string, s: string, cls: CharClass)
    requires forall i :: 0 <= i < |a| ==> !Is(a[i], cls)
    ensures Runs(a + s, cls) == Runs(s, cls)
  {
    if a == "" {
      assert a + s == s;
    } else {
      assert (a + s)[1..] == a[1..] + s;
      RunsSkipPrefix(a[1..], s, cls);
    }
  }

  lemma {:induction false} RunLengthAppend(s: string, b: string, cls: CharClass)
    requires b != "" ==> !Is(b[0], cls)
    ensures RunLength(s + b, cls) == RunLength(s, cls)
  {
    if s == "" {
      assert s + b == b;
    } else {
      assert (s + b)[1..] == s[1..] + b;
      RunLengthAppend(s[1..], b, cls);
    }
  }

  /** Past the first run, or the first character outside the class. */
  function AfterFirst(s: string, cls: CharClass): nat
    requires s != ""
  {
    if RunLength(s, cls) == 0 then 1 else RunLength(s, cls)
  }

  function FirstRun(s: string, cls: CharClass): seq<string> {
    if RunLength(s, cls) == 0 then [] else [s[..RunLength(s, cls)]]
  }

  lemma RunsStep(s: string, cls: CharClass)
    requires s != ""
    ensures AfterFirst(s, cls) <= |s|
    ensures Runs(s, cls) == FirstRun(s, cls) + Runs(s[AfterFirst(s, cls)..], cls)
  {
  }

  lemma SumCut(s: string, b: string, k: nat)
    requires k <= |s|
    ensures (s + b)[k..] == s[k..] + b && (s + b)[..k] == s[..k]
  {
  }

  lemma FirstOfSum(s: string, b: string, cls: CharClass)
    requires s != "" && (b != "" ==> !Is(b[0], cls))
    ensures FirstRun(s + b, cls) == FirstRun(s, cls) && AfterFirst(s + b, cls) == AfterFirst(s, cls) <= |s|
    ensures (s + b)[AfterFirst(s, cls)..] == s[AfterFirst(s, cls)..] + b
  {
    RunLengthAppend(s, b, cls);
    SumCut(s, b, RunLength(s, cls));
    SumCut(s, b, AfterFirst(s, cls));
  }

  lemma Regrouped(a: seq<string>, b: seq<string>, c: seq<string>)
    ensures a + (b + c) == (a + b) + c
  {
  }

  /** A suffix that starts outside the class is split off. */
  lemma {:induction false} RunsAppend(s: string, b: string, cls: CharClass)
    requires b != "" ==> !Is(b[0], cls)
    ensures Runs(s + b, cls) == Runs(s, cls) + Runs(b, cls)
    decreases |s|
  {
    if s == "" {
      assert s + b == b;
    } else {
      FirstOfSum(s, b, cls);
      RunsStep(s + b, cls);
      RunsStep(s, cls);
      RunsAppend(s[AfterFirst(s, cls)..], b, cls);
      Regrouped(FirstRun(s, cls), Runs(s[AfterFirst(s, cls)..], cls), Runs(b, cls));
    }
  }

  lemma {:induction false} NoRuns(s: string, cls: CharClass)
    requires forall i :: 0 <= i < |s| ==> !Is(s[i], cls)
    ensures Runs(s, cls) == []
  {
    if s != "" {
      NoRuns(s[1..], cls);
    }
  }

  lemma {:induction false} FullRun(s: string, cls: CharClass)
    requires forall i :: 0 <= i < |s| ==> Is(s[i], cls)
    ensures RunLength(s, cls) == |s|
  {
    if s != "" {
      FullRun(s[1..], cls);
    }
  }
}
