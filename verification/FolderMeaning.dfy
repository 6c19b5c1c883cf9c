/** Folders, items and what a selection of them means (os-ui/components/core/FolderTree.tsx,
    os-ui/lib/core/folders.ts). A folder is its list of segments: module FolderPaths shows that
    equality of normalised paths, `isUnderFolder` and the sort key are equality, prefix and
    `Depth` of segment lists. */
module FolderMeaning {
  datatype Scope = Personal | Domain
  type Path = seq<string>
  datatype Item = Item(id: string, folder: Path)
  datatype FolderGrant = FolderGrant(path: Path, scope: Scope)
  datatype Selection = Selection(folderGrants: seq<FolderGrant>, itemGrants: seq<string>)

  // ------------------------------------------------------ what a selection means

  function Ids(items: seq<Item>): set<string> {
    set i | i in items :: i.id
  }

  /** Ids of the items under one folder. */
  function Under(path: Path, items: seq<Item>): set<string> {
    set i | i in items && path <= i.folder :: i.id
  }

  /** Ids of the items under any of the granted folders. */
  function Covered(grants: seq<FolderGrant>, items: seq<Item>): set<string> {
    set g, i | g in grants && i in items && g.path <= i.folder :: i.id
  }

  /** The selection grants exactly the ticked items, items only where no folder does. */
  predicate Means(sel: Selection, items: seq<Item>, ticked: set<string>) {
    && Covered(sel.folderGrants, items) + (set id | id in sel.itemGrants) == ticked * Ids(items)
    && (forall id :: id in sel.itemGrants ==> id !in Covered(sel.folderGrants, items))
  }

  /** How many feed entries have their id in `s`. */
  function Count(items: seq<Item>, s: set<string>): nat {
    if items == [] then 0
    else (if items[0].id in s then 1 else 0) + Count(items[1..], s)
  }

  /** Every item under the folder is ticked, and there is one. */
  predicate Full(path: Path, items: seq<Item>, ticked: set<string>) {
    Under(path, items) != {} && Under(path, items) <= ticked
  }

  /** The folder itself, not only a subfolder, holds an item. */
  predicate HoldsItem(path: Path, items: seq<Item>) {
    exists i :: i in items && i.folder == path
  }

  predicate NoRepeat(paths: seq<Path>) {
    forall i, j :: 0 <= i < j < |paths| ==> paths[i] != paths[j]
  }

  predicate DistinctIds(items: seq<Item>) {
    forall i, j :: 0 <= i < j < |items| ==> items[i].id != items[j].id
  }

  // ------------------------------------------------------------- counting

  lemma {:induction false} CountGrows(items: seq<Item>, a: set<string>, b: set<string>)
    requires a <= b
    ensures Count(items, a) <= Count(items, b)
    ensures (exists i :: i in items && i.id in b && i.id !in a) ==> Count(items, a) < Count(items, b)
  {
    if items != [] {
      CountGrows(items[1..], a, b);
      assert forall i :: i in items <==> i == items[0] || i in items[1..];
    }
  }

  lemma {:induction false} CountSplits(items: seq<Item>, a: set<string>, b: set<string>)
    requires a <= b
    ensures Count(items, b - a) + Count(items, a) == Count(items, b)
  {
    if items != [] {
      CountSplits(items[1..], a, b);
    }
  }

  // ------------------------------------------------------ items under a folder

  lemma UnderAppend(path: Path, items: seq<Item>, x: Item)
    ensures Under(path, items + [x]) == Under(path, items) + if path <= x.folder then {x.id} else {}
  {
    var more := items + [x];
    assert forall i :: i in more <==> i in items || i == x;
    forall id | id in Under(path, items) ensures id in Under(path, more) {
      var i :| i in items && path <= i.folder && i.id == id;
      assert i in more;
    }
    if path <= x.folder {
      assert x in more;
    }
  }

  /** `itemsUnderFolder(path, items).map(i => i.id)`. */
  method UnderIds(path: Path, items: seq<Item>) returns (ids: seq<string>)
    ensures forall id :: id in ids <==> id in Under(path, items)
  {
    ids := [];
    for k := 0 to |items|
      invariant forall id :: id in ids <==> id in Under(path, items[..k])
    {
      assert items[..k + 1] == items[..k] + [items[k]];
      UnderAppend(path, items[..k], items[k]);
      if path <= items[k].folder {
        ids := ids + [items[k].id];
      }
    }
    assert items[..|items|] == items;
  }
}
