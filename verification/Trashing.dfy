/** Soft deletion: one new event per delete action, stamped on everything the action carries. */
module Trashing {
  import opened Base
  import opened Tables
  import opened Tree
  import opened Statements

  function TrashItem(db: Db, e: Id, now: int, r: Ref): Db
    requires r in db.items
  {
    var x := db.items[r];
    SetItem(AddEvent(db, e, Event(x.user, ItemRoot(r), x.name, now)), r, x.(deleted := true, event := Some(e)))
  }

  lemma TrashItemKeeps(db: Db, e: Id, now: int, r: Ref)
    requires Inv(db) && r in db.items && e !in db.events
    ensures Inv(TrashItem(db, e, now, r))
  {
    var x := db.items[r];
    var mid := AddEvent(db, e, Event(x.user, ItemRoot(r), x.name, now));
    AddEventKeeps(db, e, mid.events[e]);
    assert ItemOk(db, r);
    forall s | s in db.items ensures db.items[s].event != Some(e) {
      assert ItemOk(db, s);
    }
    SetItemKeeps(mid, r, x.(deleted := true, event := Some(e)));
  }

  function TrashExport(db: Db, e: Id, now: int, i: Id): Db
    requires i in db.exports
  {
    var x := db.exports[i];
    SetExport(AddEvent(db, e, Event(x.user, ExportRoot(i), x.name, now)), i, x.(deleted := true, event := Some(e)))
  }

  lemma TrashExportKeeps(db: Db, e: Id, now: int, i: Id)
    requires Inv(db) && i in db.exports && e !in db.events
    ensures Inv(TrashExport(db, e, now, i))
  {
    var x := db.exports[i];
    var mid := AddEvent(db, e, Event(x.user, ExportRoot(i), x.name, now));
    AddEventKeeps(db, e, mid.events[e]);
    assert ExportOk(db, i);
    SetExportKeeps(mid, i, x.(deleted := true, event := Some(e)));
  }

  ghost predicate InFolders(x: Item, ids: set<Id>) {
    x.folder.Some? && x.folder.value in ids
  }

  /** One event, then `markTrashed` on the folders `ids` and on the active items they hold. */
  function TrashTree(db: Db, e: Id, now: int, id: Id, ids: set<Id>): Db
    requires id in db.folders
  {
    var top := db.folders[id];
    Db(map f | f in db.folders ::
         if f in ids && db.folders[f].user == top.user && !db.folders[f].deleted
         then db.folders[f].(deleted := true, event := Some(e)) else db.folders[f],
       map r | r in db.items ::
         if r.kind == top.kind && db.items[r].user == top.user && !db.items[r].deleted
            && db.items[r].folder.Some? && db.items[r].folder.value in ids
         then db.items[r].(deleted := true, event := Some(e)) else db.items[r],
       db.exports,
       db.events[e := Event(top.user, FolderRoot(id), top.name, now)])
  }

  /** `to` is `db` with the folders `ids` and the active items in them re-stamped with event `e`. */
  ghost predicate Stamped(db: Db, to: Db, e: Id, ids: set<Id>) {
    && to.folders.Keys == db.folders.Keys && to.items.Keys == db.items.Keys && to.exports == db.exports
    && (forall f :: f in db.folders ==>
          to.folders[f] == if f in ids then db.folders[f].(deleted := true, event := Some(e)) else db.folders[f])
    && (forall r :: r in db.items ==>
          to.items[r] == if InFolders(db.items[r], ids) && db.items[r].event.None?
                         then db.items[r].(deleted := true, event := Some(e)) else db.items[r])
  }

  /** The whole active subtree, and every active item in it, is active, of one owner and one tree. */
  lemma TrashTreeStamps(db: Db, e: Id, now: int, id: Id)
    requires Inv(db) && id in db.folders && !db.folders[id].deleted
    ensures var ids := Subtree(db.folders, None, id); Stamped(db, TrashTree(db, e, now, id, ids), e, ids)
  {
    var ids := Subtree(db.folders, None, id);
    forall f | f in ids
      ensures db.folders[f].user == db.folders[id].user && db.folders[f].kind == db.folders[id].kind
      ensures !db.folders[f].deleted
    {
      SubtreeOwner(db, None, id, f);
      assert FolderOk(db, f);
    }
    forall r | r in db.items ensures db.items[r].deleted == db.items[r].event.Some?
      && (InFolders(db.items[r], ids) ==> r.kind == db.folders[id].kind && db.items[r].user == db.folders[id].user)
    {
      assert ItemOk(db, r);
    }
  }

  lemma StampedFolders(db: Db, to: Db, e: Id, now: int, id: Id, ids: set<Id>)
    requires Inv(db) && id in db.folders && !db.folders[id].deleted && ids == Subtree(db.folders, None, id)
    requires Stamped(db, to, e, ids)
    requires e !in db.events
      && to.events == db.events[e := Event(db.folders[id].user, FolderRoot(id), db.folders[id].name, now)]
    ensures FoldersOk(to)
  {
    forall f | f in to.folders ensures FolderOk(to, f) {
      assert FolderOk(db, f);
      SubtreeStep(db.folders, None, id, f);
      ParentPath(db.folders, f);
      if f in ids { SubtreeOwner(db, None, id, f); }
    }
  }

  lemma StampedNames(db: Db, to: Db, e: Id, ids: set<Id>)
    requires Inv(db) && Stamped(db, to, e, ids) && e !in db.events
    requires forall f :: f in ids ==> f in db.folders && db.folders[f].event.None?
    ensures FolderNames(to.folders) && ItemNames(to.items)
  {
    forall f, g | f in to.folders && g in to.folders && SameSlot(to.folders[f], to.folders[g]) ensures f == g {
      assert FolderOk(db, f) && FolderOk(db, g);
      assert SameSlot(db.folders[f], db.folders[g]);
    }
    forall r, s | r in to.items && s in to.items && SameItemSlot(to.items, r, s) ensures r == s {
      assert ItemOk(db, r) && ItemOk(db, s);
      assert SameItemSlot(db.items, r, s);
    }
  }

  lemma StampedItems(db: Db, to: Db, e: Id, now: int, id: Id, ids: set<Id>)
    requires Inv(db) && id in db.folders && !db.folders[id].deleted && ids == Subtree(db.folders, None, id)
    requires Stamped(db, to, e, ids)
    requires e !in db.events
      && to.events == db.events[e := Event(db.folders[id].user, FolderRoot(id), db.folders[id].name, now)]
    ensures ItemsOk(to)
  {
    forall r | r in to.items ensures ItemOk(to, r) {
      assert ItemOk(db, r);
      if InFolders(db.items[r], ids) { SubtreeOwner(db, None, id, db.items[r].folder.value); }
    }
  }

  /** Trashing a folder's active subtree as one event keeps the invariant, and every path. */
  lemma TrashTreeKeeps(db: Db, e: Id, now: int, id: Id)
    requires Inv(db) && id in db.folders && !db.folders[id].deleted && e !in db.events
    ensures var to := TrashTree(db, e, now, id, Subtree(db.folders, None, id));
      Inv(to) && Paths(to.folders) == Paths(db.folders)
  {
    var ids := Subtree(db.folders, None, id);
    var to := TrashTree(db, e, now, id, ids);
    TrashTreeStamps(db, e, now, id);
    SameTree(db.folders, to.folders);
    StampedFolders(db, to, e, now, id, ids);
    StampedNames(db, to, e, ids);
    StampedItems(db, to, e, now, id, ids);
    forall i | i in to.exports ensures ExportOk(to, i) {
      assert ExportOk(db, i);
    }
  }
}
