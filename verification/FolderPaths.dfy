/** Folder paths (os-ui/lib/core/folders.ts): normalisation and the membership test on
    strings, and their meaning on segment lists. */
module FolderPaths {
  import opened Splitting

  /** `pieces.map(trim).filter(Boolean)`. */
  function Clean(pieces: seq<string>): seq<string> {
    if pieces == [] then []
    else (if Trim(pieces[0]) == "" then [] else [Trim(pieces[0])]) + Clean(pieces[1..])
  }

  function Segments(path: string): seq<string> {
    Clean(Split(path, '/'))
  }

  function Normalise(path: string): string {
    "/" + Join(Segments(path), '/')
  }

  /** `isUnderFolder`: string comparison on normalised paths. */
  predicate IsUnder(folder: string, child: string) {
    var f, c := Normalise(folder), Normalise(child);
    f == "/" || c == f || f + "/" <= c
  }

  /** `path.split('/').length` of a normalised path, the sort key of the folder tree. */
  function Depth(path: string): nat {
    |Split(path, '/')|
  }

  // -------------------------------------------------------- segment lists

  predicate IsSegment(s: string) {
    s != "" && '/' !in s && Trim(s) == s
  }

  lemma {:induction false} StripOfSub(s: string)
    requires '/' !in s
    ensures '/' !in Trim(s) && Trim(Trim(s)) == Trim(s)
  {
    TrimTwice(s);
  }

  lemma {:induction false} CleanGivesSegments(pieces: seq<string>)
    requires forall p :: p in pieces ==> '/' !in p
    ensures forall s :: s in Clean(pieces) ==> IsSegment(s)
  {
    if pieces != [] {
      StripOfSub(pieces[0]);
      CleanGivesSegments(pieces[1..]);
    }
  }

  lemma SegmentsAreSegments(path: string)
    ensures forall s :: s in Segments(path) ==> IsSegment(s)
  {
    PiecesHoldNone(path, '/');
    CleanGivesSegments(Split(path, '/'));
  }

  lemma {:induction false} CleanKeepsSegments(segs: seq<string>)
    requires forall s :: s in segs ==> IsSegment(s)
    ensures Clean(segs) == segs
  {
    if segs != [] {
      assert segs[0] in segs;
      CleanKeepsSegments(segs[1..]);
      assert [segs[0]] + segs[1..] == segs;
    }
  }

  lemma {:induction false} CleanConcat(a: seq<string>, b: seq<string>)
    ensures Clean(a + b) == Clean(a) + Clean(b)
  {
    if a == [] {
      assert a + b == b;
    } else {
      assert (a + b)[1..] == a[1..] + b;
      CleanConcat(a[1..], b);
    }
  }

  /** The segments of a path are those of its parts between slashes, in order; a part without a
      slash is one segment, trimmed, or none if nothing is left of it. */
  lemma SegmentsOfParts(a: string, b: string)
    ensures Segments(a + "/" + b) == Segments(a) + Segments(b)
    ensures '/' !in a ==> Segments(a) == if Trim(a) == "" then [] else [Trim(a)]
  {
    SplitAppend(a, b, '/');
    CleanConcat(Split(a, '/'), Split(b, '/'));
    if '/' !in a {
      SplitSingle(a, '/');
      assert [a][1..] == [];
    }
  }

  lemma SplitNormalised(segs: seq<string>)
    requires forall s :: s in segs ==> IsSegment(s)
    ensures Split("/" + Join(segs, '/'), '/') == [""] + (if segs == [] then [""] else segs)
  {
    SplitAppend("", Join(segs, '/'), '/');
    assert "" + "/" + Join(segs, '/') == "/" + Join(segs, '/');
    if segs != [] {
      SplitJoin(segs, '/');
    }
  }

  /** Normalising loses nothing but the spelling: the segments stay, and a second
      normalisation changes nothing. */
  lemma NormaliseIsCanonical(path: string)
    ensures Segments(Normalise(path)) == Segments(path)
    ensures Normalise(Normalise(path)) == Normalise(path)
  {
    var segs := Segments(path);
    SegmentsAreSegments(path);
    SplitNormalised(segs);
    CleanKeepsSegments(segs);
    assert Clean([""] + segs) == segs && Clean([""] + [""]) == [] by {
      assert ([""] + segs)[1..] == segs;
      assert ([""] + [""])[1..] == [""] && [""][1..] == [];
    }
  }

  /** The sort key counts segments, except that the root ties with the top-level folders. */
  lemma DepthCountsSegments(path: string)
    ensures Depth(Normalise(path)) == if Segments(path) == [] then 2 else |Segments(path)| + 1
  {
    SegmentsAreSegments(path);
    SplitNormalised(Segments(path));
  }

  // ------------------------------------------- membership is segment prefix

  lemma JoinNonempty(segs: seq<string>)
    requires segs != [] && forall s :: s in segs ==> IsSegment(s)
    ensures Join(segs, '/') != ""
  {
    assert segs[0] in segs;
  }

  lemma JoinInjective(a: seq<string>, b: seq<string>)
    requires (forall s :: s in a ==> IsSegment(s)) && (forall s :: s in b ==> IsSegment(s))
    requires Join(a, '/') == Join(b, '/')
    ensures a == b
  {
    if a != [] {
      JoinNonempty(a);
      SplitJoin(a, '/');
    }
    if b != [] {
      JoinNonempty(b);
      SplitJoin(b, '/');
    }
  }

  lemma NormaliseInjective(a: string, b: string)
    ensures Normalise(a) == Normalise(b) <==> Segments(a) == Segments(b)
  {
    if Normalise(a) == Normalise(b) {
      SegmentsAreSegments(a);
      SegmentsAreSegments(b);
      assert Normalise(a)[1..] == Join(Segments(a), '/') && Normalise(b)[1..] == Join(Segments(b), '/');
      JoinInjective(Segments(a), Segments(b));
    }
  }

  /** A joined prefix followed by a slash cuts the longer list at the same place. */
  lemma {:induction false} JoinedPrefix(a: seq<string>, b: seq<string>)
    requires a != [] && (forall s :: s in a ==> IsSegment(s)) && (forall s :: s in b ==> IsSegment(s))
    ensures Join(a, '/') + "/" <= Join(b, '/') <==> a < b
  {
    var pa := Join(a, '/') + "/";
    if pa <= Join(b, '/') {
      assert Join(b, '/') == pa + Join(b, '/')[|pa|..];
      SplitAppend(Join(a, '/'), Join(b, '/')[|pa|..], '/');
      SplitJoin(a, '/');
      if b != [] {
        SplitJoin(b, '/');
      }
    }
    if a < b {
      JoinConcat(a, b[|a|..], '/');
      assert b == a + b[|a|..];
    }
  }

  lemma SlashBoth(a: string, b: string)
    ensures "/" + a <= "/" + b <==> a <= b
    ensures "/" + a == "/" + b <==> a == b
  {
    assert ("/" + a)[1..] == a && ("/" + b)[1..] == b;
    if "/" + a <= "/" + b {
      assert forall i :: 0 <= i < |a| ==> ("/" + a)[i + 1] == a[i] && ("/" + b)[i + 1] == b[i];
    }
  }

  lemma JoinedIsUnder(f: seq<string>, c: seq<string>)
    requires f != [] && (forall s :: s in f ==> IsSegment(s)) && (forall s :: s in c ==> IsSegment(s))
    ensures var nf, nc := "/" + Join(f, '/'), "/" + Join(c, '/');
            nf != "/" && (nc == nf || nf + "/" <= nc <==> f <= c)
  {
    JoinNonempty(f);
    JoinedPrefix(f, c);
    SlashBoth(Join(f, '/') + "/", Join(c, '/'));
    SlashBoth(Join(f, '/'), Join(c, '/'));
    assert "/" + Join(f, '/') + "/" == "/" + (Join(f, '/') + "/");
    if Join(f, '/') == Join(c, '/') {
      JoinInjective(f, c);
    }
    assert f <= c <==> f == c || f < c;
  }

  /** The test on normalised texts, told by their segments. */
  lemma TextsDecide(f: seq<string>, c: seq<string>, nf: string, nc: string)
    requires (forall s :: s in f ==> IsSegment(s)) && (forall s :: s in c ==> IsSegment(s))
    requires nf == "/" + Join(f, '/') && nc == "/" + Join(c, '/')
    ensures nf == "/" || nc == nf || nf + "/" <= nc <==> f <= c
  {
    if f != [] {
      JoinedIsUnder(f, c);
    }
  }

  /** `isUnderFolder` on strings is the prefix order on segment lists; in particular a
      sibling whose name merely starts the same is not inside. */
  lemma UnderIsSegmentPrefix(folder: string, child: string)
    ensures IsUnder(folder, child) <==> Segments(folder) <= Segments(child)
  {
    SegmentsAreSegments(folder);
    SegmentsAreSegments(child);
    TextsDecide(Segments(folder), Segments(child), Normalise(folder), Normalise(child));
  }
}
