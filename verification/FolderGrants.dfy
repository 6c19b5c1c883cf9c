/** Reconciling a selection with the stored grants, and reading the ticks back
    (os-ui/components/agents/GrantPickers.tsx, os-ui/lib/agents/simple-edit.ts). */
module FolderGrants {
  import opened Prelude
  import opened FolderMeaning
  import opened FolderSelection
  import FolderPaths

  datatype Kind = Data | Knowledge | Files
  datatype Layer = Bronze | Silver | Gold
  datatype Capability = Off | Blocked | Read | WriteApproval | WriteBounded

  /** A stored folder target: the segments its path normalises to, and whether the stored
      string is the normalised spelling (a hand-written one need not be). */
  datatype Target = Target(path: Path, scope: Scope, normal: bool)
  datatype Grant = Grant(id: string, capability: Capability, layer: Option<Layer>, folder: Option<Target>)

  /** Folder grants carry an empty id. */
  predicate WellFormed(grants: seq<Grant>) {
    forall g :: g in grants && g.folder.Some? ==> g.id == ""
  }

  // ------------------------------------------------ single edits of one list

  /** The string comparison `g.folder.path === path` of the edits, `path` being normalised. */
  predicate Hits(g: Grant, path: Path, scope: Scope) {
    g.folder.Some? && g.folder.value.scope == scope && g.folder.value.normal && g.folder.value.path == path
  }

  /** Equality of the picker's keys, which normalise both paths. */
  predicate SameKey(t: Target, f: FolderGrant) {
    t.path == f.path && t.scope == f.scope
  }

  function NewFolder(f: FolderGrant): Grant {
    Grant("", Read, None, Some(Target(f.path, f.scope, true)))
  }

  function NewItem(kind: Kind, id: string, layer: Layer): Grant {
    Grant(id, Read, if kind == Data && layer != Gold then Some(layer) else None, None)
  }

  /** `setFolderGrant(…, false)`: an existing grant is set to Read in place. */
  function SetFolder(grants: seq<Grant>, f: FolderGrant): seq<Grant> {
    if grants == [] then [NewFolder(f)]
    else if Hits(grants[0], f.path, f.scope) then [grants[0].(capability := Read)] + grants[1..]
    else [grants[0]] + SetFolder(grants[1..], f)
  }

  /** `removeFolderGrant`. */
  function RemoveFolder(grants: seq<Grant>, path: Path, scope: Scope): (r: seq<Grant>)
    ensures forall g :: g in r <==> g in grants && !Hits(g, path, scope)
  {
    if grants == [] then []
    else (if Hits(grants[0], path, scope) then [] else [grants[0]]) + RemoveFolder(grants[1..], path, scope)
  }

  /** `setArtifactGrant(…, false, layer)` for an id that has no grant yet. Files keep no
      per-item list, so for them nothing is recorded. */
  function AddItem(grants: seq<Grant>, kind: Kind, id: string, layer: Layer): seq<Grant> {
    if kind == Files || id == "" then grants else grants + [NewItem(kind, id, layer)]
  }

  /** `removeArtifactGrant`, which likewise leaves Files alone. */
  function RemoveItem(grants: seq<Grant>, kind: Kind, id: string): (r: seq<Grant>)
    ensures kind == Files || id == "" ==> r == grants
    ensures kind != Files && id != "" ==> forall g :: g in r <==> g in grants && g.id != id
  {
    if kind == Files || id == "" || grants == [] then grants
    else (if grants[0].id == id then [] else [grants[0]]) + RemoveItem(grants[1..], kind, id)
  }

  // -------------------------------------------- what reconciling comes to

  predicate WantsFolder(sel: Selection, t: Target) {
    exists f :: f in sel.folderGrants && SameKey(t, f)
  }

  predicate HasFolder(grants: seq<Grant>, f: FolderGrant) {
    exists g :: g in grants && g.folder.Some? && SameKey(g.folder.value, f)
  }

  predicate IsItem(g: Grant, inFamily: string -> bool) {
    g.folder.None? && g.id != "" && inFamily(g.id)
  }

  function ItemIds(grants: seq<Grant>, inFamily: string -> bool): set<string> {
    set g | g in grants && IsItem(g, inFamily) :: g.id
  }

  /** The stored grants that stay, exactly as they are. */
  predicate Stays(g: Grant, kind: Kind, sel: Selection, inFamily: string -> bool, manageFolders: bool) {
    if g.folder.Some? then !manageFolders || !g.folder.value.normal || WantsFolder(sel, g.folder.value)
    else kind == Files || !IsItem(g, inFamily) || g.id in sel.itemGrants
  }

  predicate IsNewFolder(g: Grant, before: seq<Grant>, sel: Selection) {
    exists f :: f in sel.folderGrants && !HasFolder(before, f) && g == NewFolder(f)
  }

  predicate IsNewItem(g: Grant, before: seq<Grant>, kind: Kind, sel: Selection, inFamily: string -> bool,
                      layerOf: string -> Layer)
  {
    && kind != Files && g.id != "" && g.id in sel.itemGrants && inFamily(g.id)
    && g.id !in ItemIds(before, inFamily)
    && g == NewItem(kind, g.id, layerOf(g.id))
  }

  /** `after` is the minimal diff: what stays is untouched, what is new is a plain Read
      grant that was asked for and missing, and everything asked for is there. */
  ghost predicate Reconciled(before: seq<Grant>, after: seq<Grant>, kind: Kind, sel: Selection,
                             inFamily: string -> bool, manageFolders: bool, layerOf: string -> Layer)
  {
    && (forall g :: g in before && Stays(g, kind, sel, inFamily, manageFolders) ==> g in after)
    && (forall g :: g in after ==>
          || (g in before && Stays(g, kind, sel, inFamily, manageFolders))
          || (manageFolders && IsNewFolder(g, before, sel))
          || IsNewItem(g, before, kind, sel, inFamily, layerOf))
    && (forall f :: f in sel.folderGrants && manageFolders ==> HasFolder(after, f))
    && (forall id :: id in sel.itemGrants && inFamily(id) && id != "" && kind != Files ==>
          id in ItemIds(after, inFamily))
  }

  /** A grant as a tick makes it: Read and no more. One of an item has a layer exactly for a
      dataset below gold; one of a folder has no id and no layer, and is spelt normally. */
  predicate IsMadeByTick(g: Grant, kind: Kind, layerOf: string -> Layer) {
    && g.capability == Read
    && (g.layer.Some? <==> g.folder.None? && kind == Data && layerOf(g.id) != Gold)
    && (g.layer.Some? ==> g.layer.value == layerOf(g.id))
    && (g.folder.Some? <==> g.id == "") && (g.folder.Some? ==> g.folder.value.normal)
  }

  /** The selection asks for the grant. */
  predicate IsAskedFor(g: Grant, sel: Selection) {
    if g.folder.Some? then FolderGrant(g.folder.value.path, g.folder.value.scope) in sel.folderGrants
    else g.id in sel.itemGrants
  }

  /** A stored grant stays: one of a folder unless folders are managed, it is spelt normally and
      this folder is not asked for in its scope; one of an item unless it is of the family, not
      a file, and not asked for. */
  predicate IsKept(g: Grant, kind: Kind, sel: Selection, inFamily: string -> bool, manageFolders: bool) {
    if g.folder.Some?
    then !manageFolders || !g.folder.value.normal
         || FolderGrant(g.folder.value.path, g.folder.value.scope) in sel.folderGrants
    else kind == Files || g.id == "" || !inFamily(g.id) || g.id in sel.itemGrants
  }

  /** Everything asked for is there: each folder in its scope, if folders are managed, and each
      item of the family, unless they are files. */
  predicate IsServed(grants: seq<Grant>, kind: Kind, sel: Selection, inFamily: string -> bool, manageFolders: bool) {
    && (manageFolders ==>
          forall f :: f in sel.folderGrants ==>
            exists g :: g in grants && g.folder.Some?
                        && g.folder.value.path == f.path && g.folder.value.scope == f.scope)
    && (kind != Files ==>
          forall id :: id in sel.itemGrants && inFamily(id) && id != "" ==>
            exists g :: g in grants && g.folder.None? && g.id == id)
  }

  lemma WantedIsAskedFor(sel: Selection, t: Target)
    ensures WantsFolder(sel, t) <==> FolderGrant(t.path, t.scope) in sel.folderGrants
  {
    forall f | f in sel.folderGrants && SameKey(t, f) ensures f == FolderGrant(t.path, t.scope) {
    }
  }

  /** What reconciling adds is made as a tick makes it, and asked for; of the stored grants it
      keeps exactly those that stay; and everything asked for is there. */
  lemma ReconciledGrants(before: seq<Grant>, after: seq<Grant>, kind: Kind, sel: Selection, inFamily: string -> bool,
                         manageFolders: bool, layerOf: string -> Layer)
    requires Reconciled(before, after, kind, sel, inFamily, manageFolders, layerOf)
    ensures forall g :: g in after && g !in before ==>
              && IsMadeByTick(g, kind, layerOf) && IsAskedFor(g, sel)
              && (if g.folder.Some? then manageFolders else kind != Files && inFamily(g.id))
    ensures forall g :: g in before ==> (g in after <==> IsKept(g, kind, sel, inFamily, manageFolders))
    ensures IsServed(after, kind, sel, inFamily, manageFolders)
  {
    forall g | g in after && g !in before
      ensures IsMadeByTick(g, kind, layerOf) && IsAskedFor(g, sel)
      ensures if g.folder.Some? then manageFolders else kind != Files && inFamily(g.id)
    {
      if IsNewFolder(g, before, sel) {
        var f :| f in sel.folderGrants && g == NewFolder(f);
        assert FolderGrant(f.path, f.scope) == f;
      }
    }
    forall g | g in before ensures g in after <==> IsKept(g, kind, sel, inFamily, manageFolders) {
      StoredIsKept(before, after, kind, sel, inFamily, manageFolders, layerOf, g);
    }
  }

  lemma StoredIsKept(before: seq<Grant>, after: seq<Grant>, kind: Kind, sel: Selection, inFamily: string -> bool,
                     manageFolders: bool, layerOf: string -> Layer, g: Grant)
    requires Reconciled(before, after, kind, sel, inFamily, manageFolders, layerOf) && g in before
    ensures g in after <==> IsKept(g, kind, sel, inFamily, manageFolders)
  {
    if g.folder.Some? {
      WantedIsAskedFor(sel, g.folder.value);
    }
    if IsNewItem(g, before, kind, sel, inFamily, layerOf) {
      assert IsItem(g, inFamily);
    }
  }

  // --------------------------------------------------- applyFolderSelection

  lemma {:induction false} SetFolderAppends(grants: seq<Grant>, f: FolderGrant)
    ensures (forall g :: g in grants ==> !Hits(g, f.path, f.scope)) ==> SetFolder(grants, f) == grants + [NewFolder(f)]
    ensures ((forall g :: g in grants && Hits(g, f.path, f.scope) ==> g.capability == Read)
             && (exists g :: g in grants && Hits(g, f.path, f.scope))) ==> SetFolder(grants, f) == grants
  {
    if grants != [] {
      SetFolderAppends(grants[1..], f);
      assert grants == [grants[0]] + grants[1..];
    }
  }

  /** An entry that matches is set to Read in place: the first one, and no other. */
  lemma {:induction false} SetFolderUpdates(grants: seq<Grant>, f: FolderGrant, k: nat)
    requires k < |grants| && Hits(grants[k], f.path, f.scope)
    requires forall j :: 0 <= j < k ==> !Hits(grants[j], f.path, f.scope)
    ensures SetFolder(grants, f) == grants[k := grants[k].(capability := Read)]
  {
    if k > 0 {
      SetFolderUpdates(grants[1..], f, k - 1);
    }
  }

  lemma AddFolderStep(before: seq<Grant>, was: seq<Grant>, sel: Selection, f: FolderGrant)
    requires f in sel.folderGrants && !HasFolder(before, f)
    requires forall g :: g in was ==> g in before || IsNewFolder(g, before, sel)
    ensures SetFolder(was, f) == was || SetFolder(was, f) == was + [NewFolder(f)]
    ensures HasFolder(SetFolder(was, f), f) && IsNewFolder(NewFolder(f), before, sel)
  {
    SetFolderAppends(was, f);
    assert forall g :: g in was && Hits(g, f.path, f.scope) ==> HasFolder(was, f) && g.capability == Read;
    assert SetFolder(was, f) == was + [NewFolder(f)] ==> NewFolder(f) in SetFolder(was, f);
  }

  method AddFolders(before: seq<Grant>, sel: Selection) returns (next: seq<Grant>)
    ensures forall g :: g in before ==> g in next
    ensures forall g :: g in next ==> g in before || IsNewFolder(g, before, sel)
    ensures forall f :: f in sel.folderGrants ==> HasFolder(next, f)
  {
    next := before;
    var wanted := sel.folderGrants;
    for k := 0 to |wanted|
      invariant forall g :: g in before ==> g in next
      invariant forall g :: g in next ==> g in before || IsNewFolder(g, before, sel)
      invariant forall j :: 0 <= j < k ==> HasFolder(next, wanted[j])
    {
      if !HasFolder(before, wanted[k]) {
        AddFolderStep(before, next, sel, wanted[k]);
        ghost var was := next;
        next := SetFolder(next, wanted[k]);
        assert forall g :: g in was ==> g in next;
      }
    }
  }

  predicate Unwanted(sel: Selection, have: seq<Target>, path: Path, scope: Scope) {
    exists h :: h in have && h.path == path && h.scope == scope && !WantsFolder(sel, h)
  }

  method RemoveFolders(before: seq<Grant>, sel: Selection, have: seq<Target>) returns (next: seq<Grant>)
    ensures forall g :: g in next <==>
              g in before && !(g.folder.Some? && g.folder.value.normal
                               && Unwanted(sel, have, g.folder.value.path, g.folder.value.scope))
  {
    next := before;
    for k := 0 to |have|
      invariant forall g :: g in next <==>
                  g in before && !(g.folder.Some? && g.folder.value.normal
                                   && Unwanted(sel, have[..k], g.folder.value.path, g.folder.value.scope))
    {
      var h := have[k];
      ghost var was := next;
      assert have[..k + 1] == have[..k] + [h];
      if !WantsFolder(sel, h) {
        next := RemoveFolder(next, h.path, h.scope);
      }
      forall p, s ensures Unwanted(sel, have[..k + 1], p, s) <==>
                            Unwanted(sel, have[..k], p, s) || (h.path == p && h.scope == s && !WantsFolder(sel, h))
      {
        assert forall t :: t in have[..k + 1] <==> t in have[..k] || t == h;
      }
    }
    assert have[..|have|] == have;
  }

  /** The folder targets of a list, in order. */
  function FolderTargets(grants: seq<Grant>): (r: seq<Target>)
    ensures forall t :: t in r <==> exists g :: g in grants && g.folder == Some(t)
  {
    if grants == [] then []
    else
      var rest := FolderTargets(grants[1..]);
      assert forall g :: g in grants <==> g == grants[0] || g in grants[1..];
      if grants[0].folder.Some? then [grants[0].folder.value] + rest else rest
  }

  method AddItems(before: seq<Grant>, kind: Kind, want: seq<string>, inFamily: string -> bool,
                  layerOf: string -> Layer)
    returns (next: seq<Grant>)
    ensures forall g :: g in before ==> g in next
    ensures forall g :: g in next ==>
              || g in before
              || (kind != Files && g.id != "" && g.id in want && inFamily(g.id)
                  && g.id !in ItemIds(before, inFamily) && g == NewItem(kind, g.id, layerOf(g.id)))
    ensures kind != Files ==>
              forall id :: id in want && inFamily(id) && id != "" ==> id in ItemIds(next, inFamily)
  {
    next := before;
    var have := ItemIds(before, inFamily);
    for k := 0 to |want|
      invariant forall g :: g in before ==> g in next
      invariant forall g :: g in next ==>
                  || g in before
                  || (kind != Files && g.id != "" && g.id in want && inFamily(g.id)
                      && g.id !in have && g == NewItem(kind, g.id, layerOf(g.id)))
      invariant kind != Files ==>
                  forall j :: 0 <= j < k && inFamily(want[j]) && want[j] != "" ==> want[j] in ItemIds(next, inFamily)
    {
      var id := want[k];
      ghost var was := next;
      if inFamily(id) && id !in have && id !in want[..k] {
        next := AddItem(next, kind, id, layerOf(id));
        if kind != Files && id != "" {
          assert NewItem(kind, id, layerOf(id)) in next;
        }
      }
      assert forall g :: g in was ==> g in next;
      assert ItemIds(before, inFamily) <= ItemIds(was, inFamily) <= ItemIds(next, inFamily);
    }
  }

  method RemoveItems(before: seq<Grant>, kind: Kind, want: seq<string>, have: seq<string>)
    returns (next: seq<Grant>)
    requires forall id :: id in have ==> id != ""
    ensures forall g :: g in next <==> g in before && (kind == Files || g.id !in have || g.id in want)
  {
    next := before;
    for k := 0 to |have|
      invariant forall g :: g in next <==> g in before && (kind == Files || g.id !in have[..k] || g.id in want)
    {
      assert have[..k + 1] == have[..k] + [have[k]] && have[k] in have;
      if have[k] !in want {
        next := RemoveItem(next, kind, have[k]);
      }
    }
    assert have[..|have|] == have;
  }

  /** The ids of a list's item grants, in order. */
  function ItemIdList(grants: seq<Grant>, inFamily: string -> bool): (r: seq<string>)
    ensures forall id :: id in r <==> id in ItemIds(grants, inFamily)
    ensures forall id :: id in r ==> id != ""
  {
    if grants == [] then []
    else
      var rest := ItemIdList(grants[1..], inFamily);
      assert grants == [grants[0]] + grants[1..];
      assert ItemIds(grants, inFamily)
          == ItemIds(grants[1..], inFamily) + (if IsItem(grants[0], inFamily) then {grants[0].id} else {}) by {
        assert forall g :: g in grants <==> g == grants[0] || g in grants[1..];
      }
      if IsItem(grants[0], inFamily) then [grants[0].id] + rest else rest
  }

  method ApplySelection(grants: seq<Grant>, kind: Kind, sel: Selection, inFamily: string -> bool,
                        manageFolders: bool, layerOf: string -> Layer)
    returns (next: seq<Grant>)
    requires WellFormed(grants)
    ensures Reconciled(grants, next, kind, sel, inFamily, manageFolders, layerOf)
    ensures forall g :: g in next && g !in grants ==>
              && IsMadeByTick(g, kind, layerOf) && IsAskedFor(g, sel)
              && (if g.folder.Some? then manageFolders else kind != Files && inFamily(g.id))
    ensures forall g :: g in grants ==> (g in next <==> IsKept(g, kind, sel, inFamily, manageFolders))
    ensures IsServed(next, kind, sel, inFamily, manageFolders)
  {
    next := grants;
    if manageFolders {
      next := AddFolders(grants, sel);
      ghost var added := next;
      next := RemoveFolders(next, sel, FolderTargets(grants));
      forall f | f in sel.folderGrants ensures HasFolder(next, f) {
        var g :| g in added && g.folder.Some? && SameKey(g.folder.value, f);
        assert WantsFolder(sel, g.folder.value);
        assert g in next;
      }
    }
    ghost var foldered := next;
    assert ItemIds(foldered, inFamily) == ItemIds(grants, inFamily);
    var have := ItemIdList(next, inFamily);
    next := AddItems(next, kind, sel.itemGrants, inFamily, layerOf);
    next := RemoveItems(next, kind, sel.itemGrants, have);
    ReconciledGrants(grants, next, kind, sel, inFamily, manageFolders, layerOf);
  }

  // ------------------------------------------------------------ round trip

  /** The ticks the picker shows for a list of grants: its items, and everything in the
      feed under its folders. */
  function Checked(grants: seq<Grant>, items: seq<Item>, inFamily: string -> bool): set<string> {
    ItemIds(grants, inFamily)
    + (set g, i | g in grants && g.folder.Some? && i in items && g.folder.value.path <= i.folder :: i.id)
  }

  /** Ticks that stored grants keep alive whatever is ticked: Files item grants, and folder
      grants whose spelling the removal does not match. */
  function Kept(grants: seq<Grant>, kind: Kind, items: seq<Item>, inFamily: string -> bool): set<string> {
    (if kind == Files then ItemIds(grants, inFamily) else {})
    + (set g, i | g in grants && g.folder.Some? && !g.folder.value.normal
               && i in items && g.folder.value.path <= i.folder :: i.id)
  }

  /** Ticked items of the feed outside every fully ticked folder: each needs its own grant. */
  function NeedsOwnGrant(items: seq<Item>, ticked: set<string>): set<string> {
    ticked * Ids(items) - set i | i in items && Full(i.folder, items, ticked) :: i.id
  }

  /** Item ticks that the edits do not record: those of Files. */
  function Inert(kind: Kind, items: seq<Item>, ticked: set<string>): set<string> {
    if kind == Files then NeedsOwnGrant(items, ticked) else {}
  }

  predicate FeedOk(items: seq<Item>, inFamily: string -> bool) {
    forall i :: i in items ==> i.id != "" && inFamily(i.id)
  }

  /** What `ComputeSelection` guarantees of its result, for the picker of the kind. */
  ghost predicate FromTicks(sel: Selection, kind: Kind, items: seq<Item>, ticked: set<string>) {
    && Means(sel, items, ticked)
    && (forall f :: f in sel.folderGrants ==> Full(f.path, items, ticked))
    && (kind == Files ==> (set id | id in sel.itemGrants) == NeedsOwnGrant(items, ticked))
  }

  /** In a feed with distinct ids a tick needs its own grant exactly when the folder that
      holds the item is not fully ticked. */
  lemma OwnGrantIff(items: seq<Item>, ticked: set<string>, i: Item)
    requires DistinctIds(items) && i in items
    ensures i.id in NeedsOwnGrant(items, ticked) <==> i.id in ticked && !Full(i.folder, items, ticked)
  {
    assert i.id in Ids(items);
  }

  /** Reading the ticks back after reconciling. */
  lemma CheckedAfter(before: seq<Grant>, after: seq<Grant>, kind: Kind, sel: Selection, items: seq<Item>,
                     ticked: set<string>, inFamily: string -> bool, layerOf: string -> Layer)
    requires Reconciled(before, after, kind, sel, inFamily, true, layerOf)
    requires FromTicks(sel, kind, items, ticked) && FeedOk(items, inFamily)
    ensures Checked(after, items, inFamily)
         == (ticked * Ids(items) - Inert(kind, items, ticked)) + Kept(before, kind, items, inFamily)
  {
    var expected := (ticked * Ids(items) - Inert(kind, items, ticked)) + Kept(before, kind, items, inFamily);
    forall id | id in Checked(after, items, inFamily) ensures id in expected {
      ShownIsExpected(before, after, kind, sel, items, ticked, inFamily, layerOf, id);
    }
    forall id | id in expected ensures id in Checked(after, items, inFamily) {
      ExpectedIsShown(before, after, kind, sel, items, ticked, inFamily, layerOf, id);
    }
  }

  lemma ShownIsExpected(before: seq<Grant>, after: seq<Grant>, kind: Kind, sel: Selection, items: seq<Item>,
                        ticked: set<string>, inFamily: string -> bool, layerOf: string -> Layer, id: string)
    requires Reconciled(before, after, kind, sel, inFamily, true, layerOf)
    requires FromTicks(sel, kind, items, ticked) && FeedOk(items, inFamily) && id in Checked(after, items, inFamily)
    ensures id in (ticked * Ids(items) - Inert(kind, items, ticked)) + Kept(before, kind, items, inFamily)
  {
    if id in ItemIds(after, inFamily) {
      var g :| g in after && IsItem(g, inFamily) && g.id == id;
    } else {
      var g, i :| g in after && g.folder.Some? && i in items && g.folder.value.path <= i.folder && i.id == id;
      if WantsFolder(sel, g.folder.value) {
        var f :| f in sel.folderGrants && SameKey(g.folder.value, f);
        assert id in Covered(sel.folderGrants, items);
      }
    }
  }

  lemma ExpectedIsShown(before: seq<Grant>, after: seq<Grant>, kind: Kind, sel: Selection, items: seq<Item>,
                        ticked: set<string>, inFamily: string -> bool, layerOf: string -> Layer, id: string)
    requires Reconciled(before, after, kind, sel, inFamily, true, layerOf)
    requires FromTicks(sel, kind, items, ticked) && FeedOk(items, inFamily)
    requires id in (ticked * Ids(items) - Inert(kind, items, ticked)) + Kept(before, kind, items, inFamily)
    ensures id in Checked(after, items, inFamily)
  {
    if id in Covered(sel.folderGrants, items) {
      var f, i :| f in sel.folderGrants && i in items && f.path <= i.folder && i.id == id;
      var g :| g in after && g.folder.Some? && SameKey(g.folder.value, f);
    } else if id in ticked * Ids(items) - Inert(kind, items, ticked) {
      var i :| i in items && i.id == id;
      assert id in sel.itemGrants;
    } else if kind == Files && id in ItemIds(before, inFamily) {
      var g :| g in before && IsItem(g, inFamily) && g.id == id;
      assert g in after;
    } else {
      var g, i :| g in before && g.folder.Some? && !g.folder.value.normal
               && i in items && g.folder.value.path <= i.folder && i.id == id;
      assert g in after;
    }
  }

  /** What a caller can check of the ticks, the feed and the stored grants before committing:
      every tick is of a feed item or kept anyway; no stored folder grant in a spelling of its
      own covers an unticked item; and for Files no stored item is unticked, and every tick
      outside a fully ticked folder is kept anyway. */
  predicate TicksSurvive(grants: seq<Grant>, kind: Kind, items: seq<Item>, ticked: set<string>,
                         inFamily: string -> bool)
  {
    && ticked <= Ids(items) + Kept(grants, kind, items, inFamily)
    && (forall g :: g in grants && g.folder.Some? && !g.folder.value.normal ==>
          Under(g.folder.value.path, items) <= ticked)
    && (kind == Files ==> ItemIds(grants, inFamily) <= ticked
                          && NeedsOwnGrant(items, ticked) <= Kept(grants, kind, items, inFamily))
  }

  lemma KeptWithinIff(grants: seq<Grant>, kind: Kind, items: seq<Item>, ticked: set<string>, inFamily: string -> bool)
    ensures Kept(grants, kind, items, inFamily) <= ticked
       <==> && (kind == Files ==> ItemIds(grants, inFamily) <= ticked)
            && (forall g :: g in grants && g.folder.Some? && !g.folder.value.normal ==>
                  Under(g.folder.value.path, items) <= ticked)
  {
    if Kept(grants, kind, items, inFamily) <= ticked {
      forall g, id | g in grants && g.folder.Some? && !g.folder.value.normal && id in Under(g.folder.value.path, items)
        ensures id in ticked
      {
        var i :| i in items && g.folder.value.path <= i.folder && i.id == id;
        assert id in Kept(grants, kind, items, inFamily);
      }
    }
  }

  /** The picker shows exactly what was ticked if and only if the ticks survive. */
  lemma RoundTripIff(before: seq<Grant>, after: seq<Grant>, kind: Kind, sel: Selection, items: seq<Item>,
                     ticked: set<string>, inFamily: string -> bool, layerOf: string -> Layer)
    requires Reconciled(before, after, kind, sel, inFamily, true, layerOf)
    requires FromTicks(sel, kind, items, ticked) && FeedOk(items, inFamily)
    ensures Checked(after, items, inFamily) == ticked <==> TicksSurvive(before, kind, items, ticked, inFamily)
  {
    CheckedAfter(before, after, kind, sel, items, ticked, inFamily, layerOf);
    KeptWithinIff(before, kind, items, ticked, inFamily);
    var kept, inert := Kept(before, kind, items, inFamily), Inert(kind, items, ticked);
    assert inert <= ticked;
    if Checked(after, items, inFamily) == ticked {
      forall id | id in inert ensures id in kept {
        assert id in ticked;
      }
    }
  }

  /** For datasets and knowledge stored under normalised paths the round trip always holds,
      for every set of feed items. */
  lemma RoundTrip(before: seq<Grant>, after: seq<Grant>, kind: Kind, sel: Selection, items: seq<Item>,
                  ticked: set<string>, inFamily: string -> bool, layerOf: string -> Layer)
    requires Reconciled(before, after, kind, sel, inFamily, true, layerOf)
    requires FromTicks(sel, kind, items, ticked) && FeedOk(items, inFamily) && ticked <= Ids(items)
    requires kind != Files && forall g :: g in before && g.folder.Some? ==> g.folder.value.normal
    ensures Checked(after, items, inFamily) == ticked
  {
    RoundTripIff(before, after, kind, sel, items, ticked, inFamily, layerOf);
  }

  lemma ItemsNeedOwnGrant(sel: Selection, rows: seq<Path>, items: seq<Item>, ticked: set<string>)
    requires Means(sel, items, ticked)
    requires Covered(sel.folderGrants, items) == FolderCovered(rows, items, ticked, true)
    ensures (set id | id in sel.itemGrants) == NeedsOwnGrant(items, ticked)
  {
    var full := set i | i in items && Full(i.folder, items, ticked) :: i.id;
    assert FolderCovered(rows, items, ticked, true) == full;
    var own := set id | id in sel.itemGrants;
    forall id | id in own ensures id in NeedsOwnGrant(items, ticked) {
      assert id in ticked * Ids(items);
    }
  }

  /** A tick in the tree, from `emit` to the committed grants: the ticks read back afterwards,
      for every kind and every stored list, and when they are the ticks made. */
  method CommitTicks(grants: seq<Grant>, kind: Kind, rows: seq<Path>, items: seq<Item>, ticked: set<string>,
                     scope: Scope, inFamily: string -> bool, layerOf: string -> Layer)
    returns (next: seq<Grant>)
    requires WellFormed(grants) && FeedOk(items, inFamily)
    ensures Checked(next, items, inFamily)
         == (ticked * Ids(items) - Inert(kind, items, ticked)) + Kept(grants, kind, items, inFamily)
    ensures Checked(next, items, inFamily) == ticked <==> TicksSurvive(grants, kind, items, ticked, inFamily)
    ensures forall g :: g in next && g !in grants ==>
              && IsMadeByTick(g, kind, layerOf)
              && (if g.folder.Some?
                  then && Full(g.folder.value.path, items, ticked) && g.folder.value.scope == scope
                       && (g.folder.value.path == [] ==> [] in rows || kind == Files)
                  else kind != Files && g.id in ticked * Ids(items))
    ensures forall g :: g in grants && g !in next ==>
              if g.folder.Some? then g.folder.value.normal
              else kind != Files && g.id != "" && inFamily(g.id) && g.id !in NeedsOwnGrant(items, ticked)
  {
    var sel := ComputeSelection(rows, items, ticked, scope, kind == Files);
    if kind == Files {
      ItemsNeedOwnGrant(sel, rows, items, ticked);
    }
    next := ApplySelection(grants, kind, sel, inFamily, true, layerOf);
    CheckedAfter(grants, next, kind, sel, items, ticked, inFamily, layerOf);
    RoundTripIff(grants, next, kind, sel, items, ticked, inFamily, layerOf);
    NeededIsAskedFor(sel, items, ticked);
    assert forall id :: id in sel.itemGrants ==> id in ticked * Ids(items);
  }

  /** A tick that needs its own grant gets one. */
  lemma NeededIsAskedFor(sel: Selection, items: seq<Item>, ticked: set<string>)
    requires Means(sel, items, ticked) && forall f :: f in sel.folderGrants ==> Full(f.path, items, ticked)
    ensures forall id :: id in NeedsOwnGrant(items, ticked) ==> id in sel.itemGrants
  {
    forall id | id in NeedsOwnGrant(items, ticked) ensures id in sel.itemGrants {
      if id in Covered(sel.folderGrants, items) {
        var f, i :| f in sel.folderGrants && i in items && f.path <= i.folder && i.id == id;
        FullInside(f.path, items, ticked, i);
      }
    }
  }

  lemma FirstIsGranted(grants: seq<FolderGrant>)
    ensures grants != [] ==> Grants(grants, grants[0].path)
  {
  }

  /** The workflows picker manages no folders; as its items sit at the root, no stored
      folder but the root covers them and the round trip holds. */
  lemma WorkflowsRoundTrip(before: seq<Grant>, after: seq<Grant>, sel: Selection, items: seq<Item>,
                           ticked: set<string>, inFamily: string -> bool, layerOf: string -> Layer)
    requires Reconciled(before, after, Knowledge, sel, inFamily, false, layerOf)
    requires Means(sel, items, ticked) && Compact(sel, items, ticked) && FeedOk(items, inFamily)
    requires ticked <= Ids(items) && forall i :: i in items ==> i.folder == []
    ensures Checked(after, items, inFamily) == ticked
       <==> (ticked == Ids(items) || forall g :: g in before && g.folder.Some? ==> g.folder.value.path != [])
  {
    FirstIsGranted(sel.folderGrants);
    assert Covered([], items) == {};
    assert ItemIds(after, inFamily) == ticked by {
      forall id | id in ticked ensures id in ItemIds(after, inFamily) {
        assert id in ticked * Ids(items);
        assert id in sel.itemGrants;
        var i :| i in items && i.id == id;
      }
      forall id | id in ItemIds(after, inFamily) ensures id in ticked {
        var g :| g in after && IsItem(g, inFamily) && g.id == id;
        assert g.id in sel.itemGrants;
      }
    }
    if g :| g in before && g.folder.Some? && g.folder.value.path == [] {
      assert g in after;
      assert Checked(after, items, inFamily) == Ids(items) by {
        forall id | id in Ids(items) ensures id in Checked(after, items, inFamily) {
          var i :| i in items && i.id == id;
          assert g.folder.value.path <= i.folder;
        }
      }
    }
  }

  // ------------------------------------------- where the round trip breaks

  lemma OneOfTwoFiles(items: seq<Item>)
    requires items == [Item("a", ["f"]), Item("b", ["f"])]
    ensures FromTicks(Selection([], ["a"]), Files, items, {"a"}) && NeedsOwnGrant(items, {"a"}) == {"a"}
  {
    var sel := Selection([], ["a"]);
    assert items[0] in items && items[1] in items;
    assert "b" in Under(["f"], items);
    assert Covered([], items) == {};
    assert (set id | id in sel.itemGrants) == {"a"};
    assert (set i | i in items && Full(i.folder, items, {"a"}) :: i.id) == {};
  }

  /** Ticking one of two files records nothing, although the picker offers the tick. */
  lemma FileTickIsLost(after: seq<Grant>, layerOf: string -> Layer)
    requires Reconciled([], after, Files, Selection([], ["a"]), id => true, true, layerOf)
    ensures var items := [Item("a", ["f"]), Item("b", ["f"])];
            && FromTicks(Selection([], ["a"]), Files, items, {"a"})
            && Checked(after, items, id => true) == {} && !TicksSurvive([], Files, items, {"a"}, id => true)
  {
    var items := [Item("a", ["f"]), Item("b", ["f"])];
    OneOfTwoFiles(items);
    CheckedAfter([], after, Files, Selection([], ["a"]), items, {"a"}, id => true, layerOf);
  }

  /** A folder grant whose stored path is not in normal form cannot be unticked. */
  lemma HandWrittenFolderStays(after: seq<Grant>, layerOf: string -> Layer)
    requires var stored := [Grant("", Read, None, Some(Target(["f"], Personal, false)))];
             Reconciled(stored, after, Data, Selection([], []), id => true, true, layerOf)
    ensures Checked(after, [Item("a", ["f"])], id => true) == {"a"}
  {
    var g := Grant("", Read, None, Some(Target(["f"], Personal, false)));
    var items := [Item("a", ["f"])];
    assert g in [g] && Item("a", ["f"]) in items;
    assert Means(Selection([], []), items, {});
    CheckedAfter([g], after, Data, Selection([], []), items, {}, id => true, layerOf);
  }

  /** A granted item outside the feed of the tree (a marketplace item) keeps its grant through
      the next tick exactly if it is a file; every other kind drops it, whatever is ticked. */
  lemma GrantOutsideFeedStaysIff(before: seq<Grant>, after: seq<Grant>, kind: Kind, sel: Selection, items: seq<Item>,
                                 ticked: set<string>, inFamily: string -> bool, layerOf: string -> Layer, id: string)
    requires Reconciled(before, after, kind, sel, inFamily, true, layerOf)
    requires FromTicks(sel, kind, items, ticked) && FeedOk(items, inFamily)
    requires id in ItemIds(before, inFamily) && id !in Ids(items)
    ensures id in ItemIds(after, inFamily) <==> kind == Files
    ensures id in Checked(after, items, inFamily) <==> kind == Files
  {
    CheckedAfter(before, after, kind, sel, items, ticked, inFamily, layerOf);
    var g :| g in before && IsItem(g, inFamily) && g.id == id;
    if kind == Files {
      assert g in after;
    }
  }

  // ------------------------------------------------ targets as stored texts

  /** The target of a stored path: what it normalises to, and whether it is spelt so. */
  function StoredTarget(path: string, scope: Scope): Target {
    Target(FolderPaths.Segments(path), scope, FolderPaths.Normalise(path) == path)
  }

  /** The edits compare the stored text with the normalised one asked for; the picker's keys
      normalise both. */
  lemma TargetsAreTexts(stored: string, asked: string, scope: Scope)
    ensures var g := Grant("", Read, None, Some(StoredTarget(stored, scope)));
      && (Hits(g, FolderPaths.Segments(asked), scope) <==> stored == FolderPaths.Normalise(asked))
      && (SameKey(g.folder.value, FolderGrant(FolderPaths.Segments(asked), scope))
          <==> FolderPaths.Normalise(stored) == FolderPaths.Normalise(asked))
  {
    FolderPaths.NormaliseIsCanonical(asked);
    FolderPaths.NormaliseInjective(stored, asked);
  }

  /** The key by which the folders are sorted is the length that the source computes of the text. */
  lemma DepthIsSortKey(path: string)
    ensures Depth(FolderPaths.Segments(path)) == FolderPaths.Depth(FolderPaths.Normalise(path))
  {
    FolderPaths.DepthCountsSegments(path);
  }
}
