/** The statements a restore issues: un-trash rows, merge a folder away, drop an empty event. */
module Untrashing {
  import opened Base
  import opened Tables
  import opened Tree
  import opened Statements
  import opened Trashing

  function UntrashItem(db: Db, r: Ref, dest: Option<Id>, name: string): Db
    requires r in db.items
  {
    SetItem(db, r, db.items[r].(deleted := false, event := None, folder := dest, name := name))
  }

  function UntrashExport(db: Db, i: Id): Db
    requires i in db.exports
  {
    SetExport(db, i, db.exports[i].(deleted := false, event := None))
  }

  // --- a whole subtree at once ---

  /** The folders `ids` become active, `node` under `dest`; so do the items event `e` holds in them. */
  function UntrashTree(db: Db, user: Id, kind: Kind, e: Id, node: Id, dest: Option<Id>, ids: set<Id>): Db {
    Db(map f | f in db.folders ::
         if f in ids && db.folders[f].user == user
         then db.folders[f].(
                deleted := false, event := None, parent := if f == node then dest else db.folders[f].parent)
         else db.folders[f],
       map r | r in db.items ::
         if r.kind == kind && db.items[r].user == user && db.items[r].event == Some(e)
            && db.items[r].folder.Some? && db.items[r].folder.value in ids
         then db.items[r].(deleted := false, event := None)
         else db.items[r],
       db.exports,
       db.events)
  }

  ghost predicate Released(db: Db, to: Db, e: Id, node: Id, dest: Option<Id>, ids: set<Id>) {
    && to.folders.Keys == db.folders.Keys && to.items.Keys == db.items.Keys
    && to.exports == db.exports && to.events == db.events
    && (forall f :: f in db.folders ==>
          to.folders[f] == if f in ids
                           then db.folders[f].(deleted := false, event := None,
                                               parent := if f == node then dest else db.folders[f].parent)
                           else db.folders[f])
    && (forall r :: r in db.items ==>
          to.items[r] == if InFolders(db.items[r], ids) && db.items[r].event == Some(e)
                         then db.items[r].(deleted := false, event := None)
                         else db.items[r])
  }

  lemma UntrashTreeReleases(db: Db, e: Id, node: Id, dest: Option<Id>)
    requires Inv(db) && node in db.folders && db.folders[node].event == Some(e)
    ensures var ids := Subtree(db.folders, Some(e), node); var top := db.folders[node];
      Released(db, UntrashTree(db, top.user, top.kind, e, node, dest, ids), e, node, dest, ids)
  {
    var ids := Subtree(db.folders, Some(e), node);
    forall f | f in ids
      ensures db.folders[f].user == db.folders[node].user && db.folders[f].kind == db.folders[node].kind
    {
      SubtreeOwner(db, Some(e), node, f);
    }
    forall r | r in db.items && InFolders(db.items[r], ids)
      ensures r.kind == db.folders[node].kind && db.items[r].user == db.folders[node].user
    {
      assert ItemOk(db, r);
    }
  }

  /** Where a trashed folder may be put back: an active place with the path of its old parent, where
      no active folder bears its name. */
  ghost predicate Landing(db: Db, node: Id, dest: Option<Id>)
    requires node in db.folders
  {
    var top := db.folders[node];
    && Destination(db.folders, top.user, top.kind, dest)
    && PathOf(db.folders, dest) == PathOf(db.folders, top.parent)
    && !FolderNameTaken(db.folders, top.user, top.kind, dest, top.name, None)
  }

  lemma ReleasedPaths(db: Db, to: Db, e: Id, node: Id, dest: Option<Id>, ids: set<Id>)
    requires Inv(db) && node in db.folders && Released(db, to, e, node, dest, ids)
    requires dest.Some? ==> dest.value in db.folders
    requires PathOf(db.folders, dest) == PathOf(db.folders, db.folders[node].parent)
    ensures Grounded(to.folders) && Paths(to.folders) == Paths(db.folders)
  {
    var p := Paths(db.folders);
    forall f | f in to.folders ensures Labelled(to.folders, p, f) {
      ParentPath(db.folders, f);
    }
    PathsUnique(to.folders, p);
  }

  lemma ReleasedFolders(db: Db, to: Db, e: Id, node: Id, dest: Option<Id>, ids: set<Id>)
    requires Inv(db) && node in db.folders && db.folders[node].event == Some(e) && Landing(db, node, dest)
    requires ids == Subtree(db.folders, Some(e), node) && Released(db, to, e, node, dest, ids)
    ensures FoldersOk(to)
  {
    forall f | f in to.folders ensures FolderOk(to, f) {
      assert FolderOk(db, f);
      SubtreeStep(db.folders, Some(e), node, f);
      ParentPath(db.folders, f);
      if dest.Some? {
        assert FolderOk(db, dest.value);
        SubtreeStep(db.folders, Some(e), node, dest.value);
      }
    }
  }

  lemma ReleasedFolderNames(db: Db, to: Db, e: Id, node: Id, dest: Option<Id>, ids: set<Id>)
    requires Inv(db) && node in db.folders && db.folders[node].event == Some(e) && Landing(db, node, dest)
    requires ids == Subtree(db.folders, Some(e), node) && Released(db, to, e, node, dest, ids)
    ensures FolderNames(to.folders)
  {
    var top := db.folders[node];
    forall f, g | f in to.folders && g in to.folders && SameSlot(to.folders[f], to.folders[g]) ensures f == g {
      assert FolderOk(db, f) && FolderOk(db, g);
      SubtreeStep(db.folders, Some(e), node, f);
      SubtreeStep(db.folders, Some(e), node, g);
      if f != node && g != node {
        ParentPath(db.folders, f);
        if db.folders[f].parent.Some? { SubtreeStep(db.folders, Some(e), node, db.folders[f].parent.value); }
        assert SameSlot(db.folders[f], db.folders[g]);
      } else {
        if dest.Some? {
          assert FolderOk(db, dest.value);
          SubtreeStep(db.folders, Some(e), node, dest.value);
        }
        assert Some(f) != None && Some(g) != None;
      }
    }
  }

  lemma ReleasedItems(db: Db, to: Db, e: Id, node: Id, dest: Option<Id>, ids: set<Id>)
    requires Inv(db) && node in db.folders && db.folders[node].event == Some(e)
    requires ids == Subtree(db.folders, Some(e), node) && Released(db, to, e, node, dest, ids)
    ensures ItemsOk(to)
  {
    assert FolderOk(db, node);
    forall r | r in to.items ensures ItemOk(to, r) {
      assert ItemOk(db, r);
    }
  }

  lemma ReleasedItemNames(db: Db, to: Db, e: Id, node: Id, dest: Option<Id>, ids: set<Id>)
    requires Inv(db) && Released(db, to, e, node, dest, ids)
    requires forall f :: f in ids ==> f in db.folders && db.folders[f].event == Some(e)
    ensures ItemNames(to.items)
  {
    forall r, s | r in to.items && s in to.items && SameItemSlot(to.items, r, s) ensures r == s {
      assert ItemOk(db, r) && ItemOk(db, s);
      assert SameItemSlot(db.items, r, s);
    }
  }

  /** Un-trashing the part of an event below one of its folders keeps the invariant and every path. */
  lemma UntrashTreeKeeps(db: Db, e: Id, node: Id, dest: Option<Id>)
    requires Inv(db) && node in db.folders && db.folders[node].event == Some(e) && Landing(db, node, dest)
    ensures var top := db.folders[node];
      var to := UntrashTree(db, top.user, top.kind, e, node, dest, Subtree(db.folders, Some(e), node));
      Inv(to) && Paths(to.folders) == Paths(db.folders)
  {
    var top, ids := db.folders[node], Subtree(db.folders, Some(e), node);
    var to := UntrashTree(db, top.user, top.kind, e, node, dest, ids);
    UntrashTreeReleases(db, e, node, dest);
    ReleasedPaths(db, to, e, node, dest, ids);
    ReleasedFolders(db, to, e, node, dest, ids);
    ReleasedFolderNames(db, to, e, node, dest, ids);
    ReleasedItems(db, to, e, node, dest, ids);
    ReleasedItemNames(db, to, e, node, dest, ids);
    forall i | i in to.exports ensures ExportOk(to, i) {
      assert ExportOk(db, i);
    }
  }

  // --- merging a folder away ---

  /** `UPDATE ... SET parent_id/folder_id = into` on everything filed directly in `node`. */
  function Rehome(db: Db, user: Id, kind: Kind, node: Id, into: Id): Db {
    db.(folders := map f | f in db.folders ::
          if db.folders[f].user == user && db.folders[f].parent == Some(node)
            then db.folders[f].(parent := Some(into)) else db.folders[f],
        items := map r | r in db.items ::
          if r.kind == kind && db.items[r].user == user && db.items[r].folder == Some(node)
            then db.items[r].(folder := Some(into)) else db.items[r])
  }

  /** `DELETE FROM folders` with the schema's ON DELETE SET NULL on the references to the deleted rows. */
  function DeleteFolders(db: Db, ids: set<Id>): Db {
    db.(folders := map f | f in db.folders && f !in ids ::
          if db.folders[f].parent.Some? && db.folders[f].parent.value in ids then db.folders[f].(parent := None)
            else db.folders[f],
        items := map r | r in db.items ::
          if db.items[r].folder.Some? && db.items[r].folder.value in ids then db.items[r].(folder := None)
            else db.items[r])
  }

  function MergeAway(db: Db, user: Id, kind: Kind, node: Id, into: Id): Db {
    DeleteFolders(Rehome(db, user, kind, node, into), {node})
  }

  ghost predicate MergedAway(db: Db, to: Db, node: Id, into: Id) {
    && to.folders.Keys == db.folders.Keys - {node} && to.items.Keys == db.items.Keys
    && to.exports == db.exports && to.events == db.events
    && (forall f :: f in to.folders ==>
          to.folders[f] == if db.folders[f].parent == Some(node) then db.folders[f].(parent := Some(into))
            else db.folders[f])
    && (forall r :: r in db.items ==>
          to.items[r] == if db.items[r].folder == Some(node) then db.items[r].(folder := Some(into)) else db.items[r])
  }

  lemma MergeAwayMerges(db: Db, node: Id, into: Id)
    requires Inv(db) && node in db.folders && into in db.folders && node != into
    ensures MergedAway(db, MergeAway(db, db.folders[node].user, db.folders[node].kind, node, into), node, into)
  {
    forall f | f in db.folders && db.folders[f].parent == Some(node)
      ensures db.folders[f].user == db.folders[node].user
    {
      assert FolderOk(db, f);
    }
    forall r | r in db.items && db.items[r].folder == Some(node)
      ensures r.kind == db.folders[node].kind && db.items[r].user == db.folders[node].user
    {
      assert ItemOk(db, r);
    }
  }

  /** `node` is trashed in event `e`, nothing of `e` is left in it, and an active folder with its path exists. */
  ghost predicate Mergeable(db: Db, e: Id, node: Id, into: Id) {
    && node in db.folders && db.folders[node].event == Some(e)
    && into in db.folders && !db.folders[into].deleted
    && db.folders[into].user == db.folders[node].user && db.folders[into].kind == db.folders[node].kind
    && PathOf(db.folders, Some(into)) == PathOf(db.folders, Some(node))
    && (forall f :: f in db.folders && db.folders[f].parent == Some(node) ==> db.folders[f].event != Some(e))
    && (forall r :: r in db.items && db.items[r].folder == Some(node) ==> db.items[r].event != Some(e))
  }

  lemma MergedPaths(db: Db, to: Db, e: Id, node: Id, into: Id)
    requires Inv(db) && Mergeable(db, e, node, into) && MergedAway(db, to, node, into)
    ensures Grounded(to.folders) && Paths(to.folders) == Paths(db.folders) - {node}
  {
    assert FolderOk(db, node) && FolderOk(db, into);
    var p := Paths(db.folders) - {node};
    forall f | f in to.folders ensures Labelled(to.folders, p, f) {
      ParentPath(db.folders, f);
    }
    PathsUnique(to.folders, p);
  }

  lemma MergedFolders(db: Db, to: Db, e: Id, node: Id, into: Id)
    requires Inv(db) && Mergeable(db, e, node, into) && MergedAway(db, to, node, into)
    ensures FoldersOk(to) && FolderNames(to.folders)
  {
    assert FolderOk(db, node) && FolderOk(db, into);
    forall f | f in to.folders ensures FolderOk(to, f) {
      assert FolderOk(db, f);
      ParentPath(db.folders, f);
    }
    forall f, g | f in to.folders && g in to.folders && SameSlot(to.folders[f], to.folders[g]) ensures f == g {
      assert FolderOk(db, f) && FolderOk(db, g);
      var moved := db.folders[f].parent == Some(node) || db.folders[g].parent == Some(node);
      assert moved || SameSlot(db.folders[f], db.folders[g]);
    }
  }

  lemma MergedItems(db: Db, to: Db, e: Id, node: Id, into: Id)
    requires Inv(db) && Mergeable(db, e, node, into) && MergedAway(db, to, node, into)
    ensures ItemsOk(to) && ItemNames(to.items)
  {
    assert FolderOk(db, node) && FolderOk(db, into);
    forall r | r in to.items ensures ItemOk(to, r) {
      assert ItemOk(db, r);
    }
    forall r, s | r in to.items && s in to.items && SameItemSlot(to.items, r, s) ensures r == s {
      assert ItemOk(db, r) && ItemOk(db, s);
      var moved := db.items[r].folder == Some(node);
      assert moved || SameItemSlot(db.items, r, s);
    }
  }

  /** Re-homing what is left in a merged folder and deleting it keeps the invariant and every other path. */
  lemma MergeAwayKeeps(db: Db, e: Id, node: Id, into: Id)
    requires Inv(db) && Mergeable(db, e, node, into)
    ensures var to := MergeAway(db, db.folders[node].user, db.folders[node].kind, node, into);
      Inv(to) && Paths(to.folders) == Paths(db.folders) - {node}
  {
    var to := MergeAway(db, db.folders[node].user, db.folders[node].kind, node, into);
    assert FolderOk(db, node) && FolderOk(db, into);
    MergeAwayMerges(db, node, into);
    MergedPaths(db, to, e, node, into);
    MergedFolders(db, to, e, node, into);
    MergedItems(db, to, e, node, into);
    forall i | i in to.exports ensures ExportOk(to, i) {
      assert ExportOk(db, i);
    }
  }

  // --- empty events ---

  ghost predicate Referenced(db: Db, e: Id) {
    || (exists f :: f in db.folders && db.folders[f].event == Some(e))
    || (exists r :: r in db.items && db.items[r].event == Some(e))
    || (exists i :: i in db.exports && db.exports[i].event == Some(e))
  }

  /** `DELETE FROM trash_events` with ON DELETE SET NULL on the rows that still point at it. */
  function DeleteEvent(db: Db, e: Id): Db {
    Db(map f | f in db.folders ::
         if db.folders[f].event == Some(e) then db.folders[f].(event := None) else db.folders[f],
       map r | r in db.items :: if db.items[r].event == Some(e) then db.items[r].(event := None) else db.items[r],
       map i | i in db.exports ::
         if db.exports[i].event == Some(e) then db.exports[i].(event := None) else db.exports[i],
       db.events - {e})
  }

  /** `cleanupEvent`: the event row goes once no row references it. */
  ghost function Cleanup(db: Db, user: Id, e: Id): Db {
    if Referenced(db, e) || e !in db.events || db.events[e].user != user then db else DeleteEvent(db, e)
  }

  /** Dropping an event nothing references changes no content row and keeps the invariant. */
  lemma CleanupKeeps(db: Db, user: Id, e: Id)
    requires Inv(db)
    ensures Inv(Cleanup(db, user, e))
    ensures Cleanup(db, user, e).folders == db.folders && Cleanup(db, user, e).items == db.items
    ensures Cleanup(db, user, e).exports == db.exports
    ensures forall d :: d in db.events && d != e ==> d in Cleanup(db, user, e).events
    ensures forall d :: d in Cleanup(db, user, e).events ==>
      d in db.events && Cleanup(db, user, e).events[d] == db.events[d]
  {
    var to := Cleanup(db, user, e);
    if !Referenced(db, e) {
      assert to.folders == db.folders;
      assert to.items == db.items;
      assert to.exports == db.exports;
      forall f | f in to.folders ensures FolderOk(to, f) {
        assert FolderOk(db, f);
      }
      forall r | r in to.items ensures ItemOk(to, r) {
        assert ItemOk(db, r);
      }
      forall i | i in to.exports ensures ExportOk(to, i) {
        assert ExportOk(db, i);
      }
    }
  }
}
