/** Compressing a set of ticked items into folder grants and item grants
    (os-ui/components/core/FolderTree.tsx). */
module FolderSelection {
  import opened FolderMeaning

  // ------------------------------------------------- the folders, deepest first

  /** The number of pieces of the normalised path: the root ties with top-level folders. */
  function Depth(path: Path): nat {
    if path == [] then 2 else |path| + 1
  }

  predicate DeepestFirst(paths: seq<Path>) {
    forall i, j :: 0 <= i < j < |paths| ==> Depth(paths[i]) >= Depth(paths[j])
  }

  lemma PrependKeepsSorted(x: Path, r: seq<Path>)
    requires DeepestFirst(r) && NoRepeat(r)
    requires forall q :: q in r ==> q != x && Depth(q) <= Depth(x)
    ensures DeepestFirst([x] + r) && NoRepeat([x] + r)
  {
    var s := [x] + r;
    forall i, j | 0 <= i < j < |s| ensures s[i] != s[j] && Depth(s[i]) >= Depth(s[j]) {
      assert s[j] == r[j - 1] && r[j - 1] in r;
      assert i > 0 ==> s[i] == r[i - 1];
    }
  }

  /** Stable insertion into a list sorted by the comparator of the source. */
  function InsertByDepth(p: Path, r: seq<Path>): (s: seq<Path>)
    requires DeepestFirst(r) && NoRepeat(r) && p !in r
    ensures forall q :: q in s <==> q in r || q == p
    ensures DeepestFirst(s) && NoRepeat(s)
  {
    assert r != [] ==> r[0] in r && r == [r[0]] + r[1..];
    assert forall q :: q in r ==> Depth(q) <= Depth(r[0]);
    if r == [] || Depth(r[0]) < Depth(p) then
      PrependKeepsSorted(p, r);
      [p] + r
    else
      var rest := InsertByDepth(p, r[1..]);
      PrependKeepsSorted(r[0], rest);
      [r[0]] + rest
  }

  /** The array sort the source calls. */
  function SortDeepestFirst(paths: seq<Path>): (r: seq<Path>)
    requires NoRepeat(paths)
    ensures forall p :: p in r <==> p in paths
    ensures DeepestFirst(r) && NoRepeat(r)
  {
    if paths == [] then []
    else
      var n := |paths| - 1;
      assert paths == paths[..n] + [paths[n]];
      InsertByDepth(paths[n], SortDeepestFirst(paths[..n]))
  }

  /** Every folder path with a row or an item, each once, in order of appearance. */
  method CandidatePaths(rows: seq<Path>, items: seq<Item>) returns (paths: seq<Path>)
    ensures NoRepeat(paths)
    ensures forall p :: p in paths <==> p in rows || (p != [] && HoldsItem(p, items))
  {
    paths := [];
    for k := 0 to |rows|
      invariant NoRepeat(paths)
      invariant forall p :: p in paths <==> p in rows[..k]
    {
      assert rows[..k + 1] == rows[..k] + [rows[k]];
      if rows[k] !in paths {
        paths := paths + [rows[k]];
      }
    }
    assert rows[..|rows|] == rows;
    for k := 0 to |items|
      invariant NoRepeat(paths)
      invariant forall p :: p in paths <==> p in rows || (p != [] && HoldsItem(p, items[..k]))
    {
      assert items[..k + 1] == items[..k] + [items[k]];
      var f := items[k].folder;
      if f != [] && f !in paths {
        paths := paths + [f];
      }
    }
    assert items[..|items|] == items;
  }

  // ------------------------------------------------------- computeSelection

  predicate Grants(grants: seq<FolderGrant>, path: Path) {
    exists g :: g in grants && g.path == path
  }

  /** The granted folders are those that hold an item themselves and whose whole subtree is
      ticked; registry rows have no influence. */
  ghost predicate Compact(sel: Selection, items: seq<Item>, ticked: set<string>) {
    forall p :: Grants(sel.folderGrants, p) <==> p != [] && HoldsItem(p, items) && Full(p, items, ticked)
  }

  lemma CoveredAppend(grants: seq<FolderGrant>, g: FolderGrant, items: seq<Item>)
    ensures Covered(grants + [g], items) == Covered(grants, items) + Under(g.path, items)
  {
    var more := grants + [g];
    assert forall h :: h in more <==> h in grants || h == g;
    forall id | id in Covered(grants, items) ensures id in Covered(more, items) {
      var h, i :| h in grants && i in items && h.path <= i.folder && i.id == id;
      assert h in more;
    }
    forall id | id in Under(g.path, items) ensures id in Covered(more, items) {
      var i :| i in items && g.path <= i.folder && i.id == id;
      assert g in more;
    }
  }

  /** A ticked folder that newly covers something holds an item itself, when every deeper
      ticked folder was handled before. */
  lemma NewCoverHoldsItem(p: Path, items: seq<Item>, ticked: set<string>, covered: set<string>)
    requires p != [] && Full(p, items, ticked) && !(Under(p, items) <= covered)
    requires forall f :: HoldsItem(f, items) && Depth(f) > Depth(p) && Full(f, items, ticked) ==>
               Under(f, items) <= covered
    ensures HoldsItem(p, items)
  {
    var id :| id in Under(p, items) && id !in covered;
    var i :| i in items && p <= i.folder && i.id == id;
    var f := i.folder;
    if f != p {
      assert Under(f, items) <= Under(p, items);
      assert id in Under(f, items);
      assert HoldsItem(f, items);
    }
  }

  /** A folder that holds an item is not covered by other grants at its depth or deeper. */
  lemma HolderIsUncovered(p: Path, items: seq<Item>, grants: seq<FolderGrant>)
    requires p != [] && HoldsItem(p, items) && DistinctIds(items)
    requires forall g :: g in grants ==> g.path != [] && g.path != p && Depth(g.path) >= Depth(p)
    ensures !(Under(p, items) <= Covered(grants, items))
  {
    var i :| i in items && i.folder == p;
    assert i.id in Under(p, items);
  }

  /** What the loop over the ordered folders maintains. */
  ghost predicate Collected(grants: seq<FolderGrant>, covered: set<string>, items: seq<Item>, ticked: set<string>,
                            scope: Scope)
  {
    && covered == Covered(grants, items) <= ticked * Ids(items)
    && |grants| <= Count(items, covered)
    && (forall g :: g in grants ==> g.scope == scope && Full(g.path, items, ticked))
  }

  lemma CollectOne(grants: seq<FolderGrant>, covered: set<string>, items: seq<Item>, ticked: set<string>,
                   scope: Scope, p: Path)
    requires Collected(grants, covered, items, ticked, scope) && Full(p, items, ticked)
    ensures !(Under(p, items) <= covered) ==>
              Collected(grants + [FolderGrant(p, scope)], covered + Under(p, items), items, ticked, scope)
  {
    if !(Under(p, items) <= covered) {
      CoveredAppend(grants, FolderGrant(p, scope), items);
      var id :| id in Under(p, items) && id !in covered;
      var i :| i in items && p <= i.folder && i.id == id;
      CountGrows(items, covered, covered + Under(p, items));
    }
  }

  method ItemGrants(items: seq<Item>, ticked: set<string>, covered: set<string>) returns (ids: seq<string>)
    ensures (forall id :: id in ids <==> id in ticked * Ids(items) - covered)
    ensures |ids| == Count(items, ticked - covered)
  {
    ids := [];
    for k := 0 to |items|
      invariant forall id :: id in ids <==> id in ticked - covered && exists i :: i in items[..k] && i.id == id
      invariant |ids| + Count(items[k..], ticked - covered) == Count(items, ticked - covered)
    {
      assert items[..k + 1] == items[..k] + [items[k]];
      assert items[k..][1..] == items[k + 1..];
      if items[k].id in ticked && items[k].id !in covered {
        ids := ids + [items[k].id];
      }
    }
    assert items[..|items|] == items;
  }

  /** The exact part of the loop: which of the folders handled so far were granted. */
  ghost predicate Exact(grants: seq<FolderGrant>, covered: set<string>, items: seq<Item>, ticked: set<string>,
                        handled: seq<Path>)
  {
    && (forall g :: g in grants ==> g.path in handled && g.path != [] && HoldsItem(g.path, items))
    && (forall p :: p in handled && Full(p, items, ticked) ==>
          Under(p, items) <= covered && (HoldsItem(p, items) ==> Grants(grants, p)))
  }

  lemma ExactStaysCovered(grants: seq<FolderGrant>, items: seq<Item>, ticked: set<string>, paths: seq<Path>, k: nat)
    requires k < |paths| && NoRepeat(paths) && DeepestFirst(paths) && [] !in paths && DistinctIds(items)
    requires Exact(grants, Covered(grants, items), items, ticked, paths[..k])
    requires Under(paths[k], items) <= Covered(grants, items)
    ensures Exact(grants, Covered(grants, items), items, ticked, paths[..k + 1])
  {
    var p := paths[k];
    assert paths[..k + 1] == paths[..k] + [p] && p in paths;
    if HoldsItem(p, items) {
      forall g | g in grants ensures g.path != [] && g.path != p && Depth(g.path) >= Depth(p) {
        var i :| 0 <= i < k && paths[i] == g.path;
      }
      HolderIsUncovered(p, items, grants);
    }
  }

  lemma ExactStaysGranted(grants: seq<FolderGrant>, covered: set<string>, items: seq<Item>, ticked: set<string>,
                          scope: Scope, paths: seq<Path>, k: nat)
    requires k < |paths| && DeepestFirst(paths) && [] !in paths
    requires forall p :: p != [] && HoldsItem(p, items) ==> p in paths
    requires Exact(grants, covered, items, ticked, paths[..k])
    requires Full(paths[k], items, ticked) && !(Under(paths[k], items) <= covered)
    ensures Exact(grants + [FolderGrant(paths[k], scope)], covered + Under(paths[k], items), items, ticked,
                  paths[..k + 1])
  {
    var p := paths[k];
    assert paths[..k + 1] == paths[..k] + [p] && p in paths;
    forall f | HoldsItem(f, items) && Depth(f) > Depth(p) && Full(f, items, ticked)
      ensures Under(f, items) <= covered
    {
      var i :| 0 <= i < |paths| && paths[i] == f;
      assert i < k;
      assert f in paths[..k];
    }
    NewCoverHoldsItem(p, items, ticked, covered);
    var more := grants + [FolderGrant(p, scope)];
    assert forall g :: g in more <==> g in grants || g == FolderGrant(p, scope);
    assert FolderGrant(p, scope) in more;
  }

  /** The root row is part of the folder list, or the whole root is granted at once. */
  predicate RootIsSpecial(rows: seq<Path>, items: seq<Item>, ticked: set<string>, rootGrantable: bool) {
    [] in rows || (rootGrantable && Full([], items, ticked))
  }

  /** The grant of a fully ticked root, made before any folder is looked at. */
  method GrantRoot(items: seq<Item>, ticked: set<string>, scope: Scope, rootGrantable: bool)
    returns (grants: seq<FolderGrant>, covered: set<string>)
    ensures Collected(grants, covered, items, ticked, scope)
    ensures if rootGrantable && Full([], items, ticked)
            then grants == [FolderGrant([], scope)] && covered == Ids(items)
            else grants == [] && covered == {}
  {
    grants, covered := [], {};
    assert Collected([], {}, items, ticked, scope);
    if rootGrantable {
      var rootIds := UnderIds([], items);
      var under := set id | id in rootIds;
      assert under == Under([], items);
      assert Under([], items) == Ids(items);
      if |rootIds| > 0 && forall id :: id in rootIds ==> id in ticked {
        assert rootIds[0] in under;
        CollectOne([], {}, items, ticked, scope, []);
        assert {} + under == under && [] + [FolderGrant([], scope)] == [FolderGrant([], scope)];
        grants, covered := [FolderGrant([], scope)], under;
      }
    }
  }

  /** One pass of the loop over the ordered folders. */
  method GrantFolder(path: Path, items: seq<Item>, ticked: set<string>, scope: Scope,
                     before: seq<FolderGrant>, seen: set<string>)
    returns (grants: seq<FolderGrant>, covered: set<string>)
    requires Collected(before, seen, items, ticked, scope)
    ensures Collected(grants, covered, items, ticked, scope)
    ensures if Full(path, items, ticked) && !(Under(path, items) <= seen)
            then grants == before + [FolderGrant(path, scope)] && covered == seen + Under(path, items)
            else grants == before && covered == seen
  {
    grants, covered := before, seen;
    var ids := UnderIds(path, items);
    var under := set id | id in ids;
    assert under == Under(path, items);
    if ids == [] {
      return;
    }
    assert ids[0] in under;
    if forall id :: id in ids ==> id in ticked {
      assert Full(path, items, ticked);
      CollectOne(before, seen, items, ticked, scope, path);
      if !forall id :: id in ids ==> id in seen {
        grants := before + [FolderGrant(path, scope)];
      }
      covered := seen + under;
    }
  }

  /** The ids that folder grants cover: those of items whose own folder is fully ticked. The
      root is a folder here only if it has a row or may be granted. */
  function FolderCovered(rows: seq<Path>, items: seq<Item>, ticked: set<string>, rootGrantable: bool): set<string> {
    set i | i in items && (i.folder != [] || [] in rows || rootGrantable) && Full(i.folder, items, ticked) :: i.id
  }

  /** A folder the loop looks at. */
  predicate IsCandidate(p: Path, rows: seq<Path>, items: seq<Item>) {
    p in rows || (p != [] && HoldsItem(p, items))
  }

  /** Every fully ticked candidate handled so far is covered, and the root is granted only
      where it may be. */
  ghost predicate Swept(grants: seq<FolderGrant>, covered: set<string>, rows: seq<Path>, items: seq<Item>,
                        ticked: set<string>, rootGrantable: bool, handled: seq<Path>)
  {
    && (forall p :: p in handled && Full(p, items, ticked) ==> Under(p, items) <= covered)
    && (rootGrantable && Full([], items, ticked) ==> Ids(items) <= covered)
    && (forall g :: g in grants && g.path == [] ==> [] in rows || rootGrantable)
  }

  lemma SweepOne(grants: seq<FolderGrant>, seen: set<string>, rows: seq<Path>, items: seq<Item>, ticked: set<string>,
                 rootGrantable: bool, paths: seq<Path>, k: nat, more: seq<FolderGrant>, covered: set<string>,
                 scope: Scope)
    requires k < |paths| && IsCandidate(paths[k], rows, items)
    requires Swept(grants, seen, rows, items, ticked, rootGrantable, paths[..k])
    requires covered == if Full(paths[k], items, ticked) then seen + Under(paths[k], items) else seen
    requires more == grants || more == grants + [FolderGrant(paths[k], scope)]
    ensures Swept(more, covered, rows, items, ticked, rootGrantable, paths[..k + 1])
  {
    assert paths[..k + 1] == paths[..k] + [paths[k]];
  }

  /** A folder with an item inside a fully ticked folder is fully ticked. */
  lemma FullInside(p: Path, items: seq<Item>, ticked: set<string>, i: Item)
    requires Full(p, items, ticked) && i in items && p <= i.folder
    ensures Full(i.folder, items, ticked)
  {
    assert i.id in Under(i.folder, items);
    assert Under(i.folder, items) <= Under(p, items);
  }

  lemma CoveredIsFull(grants: seq<FolderGrant>, rows: seq<Path>, items: seq<Item>, ticked: set<string>,
                      rootGrantable: bool, id: string)
    requires forall g :: g in grants ==> Full(g.path, items, ticked)
    requires forall g :: g in grants && g.path == [] ==> [] in rows || rootGrantable
    requires id in Covered(grants, items)
    ensures id in FolderCovered(rows, items, ticked, rootGrantable)
  {
    var g, i :| g in grants && i in items && g.path <= i.folder && i.id == id;
    FullInside(g.path, items, ticked, i);
  }

  lemma FullIsCovered(covered: set<string>, rows: seq<Path>, items: seq<Item>, ticked: set<string>,
                      rootGrantable: bool, paths: seq<Path>, id: string)
    requires Swept([], covered, rows, items, ticked, rootGrantable, paths)
    requires forall p :: IsCandidate(p, rows, items) ==> p in paths
    requires id in FolderCovered(rows, items, ticked, rootGrantable)
    ensures id in covered
  {
    var i :| i in items && i.id == id && Full(i.folder, items, ticked)
             && (i.folder != [] || [] in rows || rootGrantable);
    assert id in Under(i.folder, items);
    if IsCandidate(i.folder, rows, items) {
      assert i.folder in paths;
    } else {
      assert HoldsItem(i.folder, items);
    }
  }

  lemma CoverageIsFull(grants: seq<FolderGrant>, rows: seq<Path>, items: seq<Item>, ticked: set<string>,
                       rootGrantable: bool, scope: Scope, paths: seq<Path>)
    requires Collected(grants, Covered(grants, items), items, ticked, scope)
    requires Swept(grants, Covered(grants, items), rows, items, ticked, rootGrantable, paths)
    requires forall p :: IsCandidate(p, rows, items) ==> p in paths
    ensures Covered(grants, items) == FolderCovered(rows, items, ticked, rootGrantable)
  {
    forall id | id in Covered(grants, items) ensures id in FolderCovered(rows, items, ticked, rootGrantable) {
      CoveredIsFull(grants, rows, items, ticked, rootGrantable, id);
    }
    forall id | id in FolderCovered(rows, items, ticked, rootGrantable) ensures id in Covered(grants, items) {
      FullIsCovered(Covered(grants, items), rows, items, ticked, rootGrantable, paths, id);
    }
  }

  /** One pass keeps the exact part, if the selection is a plain one. */
  lemma ExactStays(grants: seq<FolderGrant>, seen: set<string>, items: seq<Item>, ticked: set<string>, scope: Scope,
                   paths: seq<Path>, k: nat, more: seq<FolderGrant>, covered: set<string>)
    requires k < |paths| && NoRepeat(paths) && DeepestFirst(paths) && [] !in paths && DistinctIds(items)
    requires forall p :: p != [] && HoldsItem(p, items) ==> p in paths
    requires seen == Covered(grants, items) && Exact(grants, seen, items, ticked, paths[..k])
    requires if Full(paths[k], items, ticked) && !(Under(paths[k], items) <= seen)
             then more == grants + [FolderGrant(paths[k], scope)] && covered == seen + Under(paths[k], items)
             else more == grants && covered == seen
    ensures Exact(more, covered, items, ticked, paths[..k + 1])
  {
    assert paths[..k + 1] == paths[..k] + [paths[k]];
    if Full(paths[k], items, ticked) {
      if Under(paths[k], items) <= seen {
        ExactStaysCovered(grants, items, ticked, paths, k);
      } else {
        ExactStaysGranted(grants, seen, items, ticked, scope, paths, k);
      }
    }
  }

  /** The loop over the ordered folders. */
  method GrantFolders(rows: seq<Path>, items: seq<Item>, ticked: set<string>, scope: Scope, rootGrantable: bool)
    returns (grants: seq<FolderGrant>, covered: set<string>)
    ensures Collected(grants, covered, items, ticked, scope)
    ensures covered == FolderCovered(rows, items, ticked, rootGrantable)
    ensures forall g :: g in grants && g.path == [] ==> [] in rows || rootGrantable
    ensures rootGrantable && Full([], items, ticked) ==> grants == [FolderGrant([], scope)] && covered == Ids(items)
    ensures DistinctIds(items) && !RootIsSpecial(rows, items, ticked, rootGrantable) ==>
              Compact(Selection(grants, []), items, ticked)
  {
    ghost var plain := DistinctIds(items) && !RootIsSpecial(rows, items, ticked, rootGrantable);
    grants, covered := GrantRoot(items, ticked, scope, rootGrantable);
    var paths := CandidatePaths(rows, items);
    paths := SortDeepestFirst(paths);
    for k := 0 to |paths|
      invariant Collected(grants, covered, items, ticked, scope)
      invariant Swept(grants, covered, rows, items, ticked, rootGrantable, paths[..k])
      invariant rootGrantable && Full([], items, ticked) ==> grants == [FolderGrant([], scope)] && covered == Ids(items)
      invariant plain ==> Exact(grants, covered, items, ticked, paths[..k])
    {
      ghost var before, seen := grants, covered;
      assert paths[k] in paths;
      grants, covered := GrantFolder(paths[k], items, ticked, scope, grants, covered);
      SweepOne(before, seen, rows, items, ticked, rootGrantable, paths, k, grants, covered, scope);
      if plain {
        ExactStays(before, seen, items, ticked, scope, paths, k, grants, covered);
      }
    }
    assert paths[..|paths|] == paths;
    CoverageIsFull(grants, rows, items, ticked, rootGrantable, scope, paths);
  }

  /** Grants never outnumber ticked entries: a folder grant covers an entry no other one does,
      and an item grant is of an uncovered entry. */
  lemma NeverMoreThanTicked(sel: Selection, items: seq<Item>, ticked: set<string>)
    requires Means(sel, items, ticked)
    requires |sel.folderGrants| <= Count(items, Covered(sel.folderGrants, items))
    requires |sel.itemGrants| == Count(items, ticked - Covered(sel.folderGrants, items))
    ensures |sel.folderGrants| + |sel.itemGrants| <= Count(items, ticked)
  {
    CountSplits(items, Covered(sel.folderGrants, items), ticked);
  }

  method ComputeSelection(rows: seq<Path>, items: seq<Item>, ticked: set<string>, scope: Scope, rootGrantable: bool)
    returns (sel: Selection)
    ensures Means(sel, items, ticked)
    ensures Covered(sel.folderGrants, items) == FolderCovered(rows, items, ticked, rootGrantable)
    ensures |sel.folderGrants| <= Count(items, Covered(sel.folderGrants, items))
    ensures |sel.itemGrants| == Count(items, ticked - Covered(sel.folderGrants, items))
    ensures forall g :: g in sel.folderGrants ==> g.scope == scope && Full(g.path, items, ticked)
    ensures forall g :: g in sel.folderGrants && g.path == [] ==> [] in rows || rootGrantable
    ensures DistinctIds(items) && !RootIsSpecial(rows, items, ticked, rootGrantable) ==> Compact(sel, items, ticked)
    ensures rootGrantable && Full([], items, ticked) ==> sel == Selection([FolderGrant([], scope)], [])
  {
    var grants, covered := GrantFolders(rows, items, ticked, scope, rootGrantable);
    var ids := ItemGrants(items, ticked, covered);
    assert ids != [] ==> ids[0] in ids;
    sel := Selection(grants, ids);
  }
}
