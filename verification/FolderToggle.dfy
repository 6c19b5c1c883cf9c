/** Ticking a whole folder (os-ui/components/core/FolderTree.tsx, os-ui/lib/core/folders.ts). */
module FolderToggle {
  import opened FolderMeaning

  datatype TriState = NoneTicked | SomeTicked | AllTicked

  /** `triState` by counting, over the ids under a folder. */
  method ComputeTriState(ticked: set<string>, under: seq<string>) returns (state: TriState)
    ensures state == AllTicked <==> under != [] && forall id :: id in under ==> id in ticked
    ensures state == NoneTicked <==> forall id :: id in under ==> id !in ticked
  {
    if under == [] {
      return NoneTicked;
    }
    var hits := 0;
    for k := 0 to |under|
      invariant 0 <= hits <= k
      invariant hits == k <==> forall j :: 0 <= j < k ==> under[j] in ticked
      invariant hits == 0 <==> forall j :: 0 <= j < k ==> under[j] !in ticked
    {
      if under[k] in ticked {
        hits := hits + 1;
      }
    }
    assert under[0] in under;
    state := if hits == 0 then NoneTicked else if hits == |under| then AllTicked else SomeTicked;
  }

  /** `toggleFolder`: a full folder is cleared, any other is filled. */
  method ToggleFolder(path: Path, items: seq<Item>, ticked: set<string>) returns (next: set<string>)
    ensures next - Under(path, items) == ticked - Under(path, items)
    ensures if Full(path, items, ticked) then next !! Under(path, items) else Under(path, items) <= next
  {
    var under := UnderIds(path, items);
    var state := ComputeTriState(ticked, under);
    assert under != [] ==> under[0] in Under(path, items);
    next := ticked;
    for k := 0 to |under|
      invariant next - Under(path, items) == ticked - Under(path, items)
      invariant forall j :: 0 <= j < k ==> (under[j] in next <==> state != AllTicked)
    {
      assert under[k] in Under(path, items);
      if state == AllTicked {
        next := next - {under[k]};
      } else {
        next := next + {under[k]};
      }
    }
    assert (set id | id in under) == Under(path, items);
  }
}
