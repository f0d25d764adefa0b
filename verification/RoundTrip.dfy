/** Deleting and restoring: what a restore without collisions brings back, and that it undoes a delete. */
module RoundTrip {
  import opened Base
  import opened Tables
  import opened Tree
  import opened Statements
  import opened Trashing
  import opened Untrashing
  import opened Placement
  import opened Steps
  import opened Outcomes
  import opened RestoreSteps
  import opened Restoring
  import S = Store

  /** A restore without resolutions that met no collision brings back everything it concerns: each item shows at its
      old path and name beside what was there before, and no folder of the part restored is left in the trash. */
  lemma AllBack(c: Restore, way: Path, a: Db, d: Db, X: set<Id>, Y: set<Ref>)
    requires Finished(c, way, a, d, X, Y, []) && c.res == map[]
    ensures Live(d, c.user, c.kind) == Live(a, c.user, c.kind) + Entries(a, Y)
    ensures forall f :: f in X && f in d.folders ==> d.folders[f].event.None?
  {
    forall r | r in Y ensures Returns(c, a, r) {
      assert ConflictOf(a, r) !in Conflicting(c, a, Y);
    }
    forall f | f in X && f in d.folders ensures d.folders[f].event.None? {
      RetainsTaken(c, a, d, X, Y, f);
    }
    RestoreIsUnion(c, a, d, X, Y, c.user, c.kind);
    assert Entries(a, Y) == Entries(a, set r | r in Y && r in a.items && Returns(c, a, r));
    assert Live(a, c.user, c.kind) == set n | n in Live(a, c.user, c.kind) && !Overridden(c, a, Y, n.item);
  }

  // --- a delete, undone ---

  lemma {:induction false} CarriedTogether(db: Db, t: Db, e: Id, id: Id, f: Id)
    requires Inv(db) && Inv(t) && f in Subtree(db.folders, None, id) && Stamped(db, t, e, Subtree(db.folders, None, id))
    ensures f in Subtree(t.folders, Some(e), id)
    decreases |Paths(db.folders)[f]|
  {
    SubtreeStep(db.folders, None, id, f);
    ParentPath(db.folders, f);
    if f != id { CarriedTogether(db, t, e, id, db.folders[f].parent.value); }
    SubtreeStep(t.folders, Some(e), id, f);
  }

  /** The event of a trashed folder carries exactly the subtree that was active. */
  lemma CarriedSubtree(db: Db, e: Id, now: int, id: Id)
    requires Inv(db) && id in db.folders && !db.folders[id].deleted && e !in db.events
    ensures Subtree(TrashTree(db, e, now, id, Subtree(db.folders, None, id)).folders, Some(e), id)
      == Subtree(db.folders, None, id)
  {
    var ids := Subtree(db.folders, None, id);
    var t := TrashTree(db, e, now, id, ids);
    TrashTreeKeeps(db, e, now, id);
    TrashTreeStamps(db, e, now, id);
    forall f | f in ids ensures f in Subtree(t.folders, Some(e), id) {
      CarriedTogether(db, t, e, id, f);
    }
    forall f | f in Subtree(t.folders, Some(e), id) ensures f in ids {
      assert FolderOk(db, f);
    }
  }

  /** The place a folder was trashed from is still there and free. */
  lemma PlaceStillFree(db: Db, e: Id, now: int, id: Id)
    requires Inv(db) && id in db.folders && !db.folders[id].deleted && e !in db.events
    ensures Landing(TrashTree(db, e, now, id, Subtree(db.folders, None, id)), id, db.folders[id].parent)
  {
    var ids, top := Subtree(db.folders, None, id), db.folders[id];
    var t := TrashTree(db, e, now, id, ids);
    TrashTreeKeeps(db, e, now, id);
    TrashTreeStamps(db, e, now, id);
    assert FolderOk(db, id);
    ParentPath(db.folders, id);
    SubtreeStep(db.folders, None, id, id);
    if top.parent.Some? {
      assert FolderOk(db, top.parent.value);
      if top.parent.value in ids { SubtreePaths(db.folders, None, id, top.parent.value); }
    }
    forall g | g in t.folders ensures !ActiveNamesake(t.folders[g], top.user, top.kind, top.parent, top.name) {
      assert FolderOk(db, g);
      if g !in ids { assert SameSlot(db.folders[g], top) ==> g == id; }
    }
  }

  lemma ItemsBack(db: Db, t: Db, back: Db, e: Id, id: Id, ids: set<Id>)
    requires Inv(db) && id in db.folders && e !in db.events
    requires Stamped(db, t, e, ids) && Released(t, back, e, id, db.folders[id].parent, ids)
    ensures back.items == db.items
  {
    forall r | r in db.items ensures back.items[r] == db.items[r] {
      assert ItemOk(db, r);
    }
  }

  lemma FoldersBack(db: Db, t: Db, back: Db, e: Id, id: Id, ids: set<Id>)
    requires Inv(db) && id in db.folders && e !in db.events && id in ids
    requires Stamped(db, t, e, ids) && Released(t, back, e, id, db.folders[id].parent, ids)
    requires forall f :: f in ids ==> f in db.folders && !db.folders[f].deleted
    ensures back.folders == db.folders
  {
    forall f | f in db.folders ensures back.folders[f] == db.folders[f] {
      assert FolderOk(db, f);
    }
  }

  /** Stamping a subtree with an event and un-stamping it leaves no trace. */
  lemma StampUndone(db: Db, e: Id, now: int, id: Id)
    requires Inv(db) && id in db.folders && !db.folders[id].deleted && e !in db.events
    ensures var ids := Subtree(db.folders, None, id); var top := db.folders[id];
      var back := UntrashTree(TrashTree(db, e, now, id, ids), top.user, top.kind, e, id, top.parent, ids);
      back.folders == db.folders && back.items == db.items && back.exports == db.exports
  {
    var ids, top := Subtree(db.folders, None, id), db.folders[id];
    var t := TrashTree(db, e, now, id, ids);
    var back := UntrashTree(t, top.user, top.kind, e, id, top.parent, ids);
    TrashTreeKeeps(db, e, now, id);
    TrashTreeStamps(db, e, now, id);
    CarriedSubtree(db, e, now, id);
    assert FolderOk(db, id);
    SubtreeStep(db.folders, None, id, id);
    UntrashTreeReleases(t, e, id, top.parent);
    FoldersBack(db, t, back, e, id, ids);
    ItemsBack(db, t, back, e, id, ids);
  }

  lemma NothingRefers(db: Db, back: Db, e: Id)
    requires Inv(db) && e !in db.events
    requires back.folders == db.folders && back.items == db.items && back.exports == db.exports
    ensures !Referenced(back, e)
  {
    forall f | f in db.folders ensures db.folders[f].event != Some(e) { assert FolderOk(db, f); }
    forall r | r in db.items ensures db.items[r].event != Some(e) { assert ItemOk(db, r); }
    forall i | i in db.exports ensures db.exports[i].event != Some(e) { assert ExportOk(db, i); }
  }

  /** With every row as before, the new event is unreferenced and goes too. */
  lemma EventDropped(db: Db, back: Db, user: Id, e: Id)
    requires Inv(db) && e !in db.events && e in back.events && back.events[e].user == user
    requires back.folders == db.folders && back.items == db.items && back.exports == db.exports
    requires db.events == back.events - {e}
    ensures Cleanup(back, user, e) == db
  {
    NothingRefers(db, back, e);
    var to := DeleteEvent(back, e);
    assert to.folders == db.folders;
    assert to.items == db.items;
    assert to.exports == db.exports;
  }

  lemma FolderUndone(db: Db, e: Id, now: int, user: Id, id: Id)
    requires Inv(db) && OwnActiveFolder(db.folders, user, id) && e !in db.events
    ensures var t := TrashTree(db, e, now, id, Subtree(db.folders, None, id));
      var S := Subtree(t.folders, Some(e), id);
      Cleanup(UntrashTree(t, user, db.folders[id].kind, e, id, db.folders[id].parent, S), user, e) == db
  {
    var t := TrashTree(db, e, now, id, Subtree(db.folders, None, id));
    CarriedSubtree(db, e, now, id);
    StampUndone(db, e, now, id);
    var S := Subtree(t.folders, Some(e), id);
    EventDropped(db, UntrashTree(t, user, db.folders[id].kind, e, id, db.folders[id].parent, S), user, e);
  }

  lemma ItemUndone(db: Db, e: Id, now: int, user: Id, r: Ref)
    requires Inv(db) && S.OwnActiveItem(db, user, r) && e !in db.events
    ensures ItemLanding(TrashItem(db, e, now, r), r, db.items[r].folder)
    ensures Cleanup(UntrashItem(TrashItem(db, e, now, r), r, db.items[r].folder, db.items[r].name), user, e) == db
  {
    var t := TrashItem(db, e, now, r);
    S.ActiveFiled(db, r);
    if Taken(t, r) {
      var s :| ShowsAt(t, s, user, r.kind, ItemPath(t, r), t.items[r].name);
      ItemLocated(db, r, s);
    }
    var back := UntrashItem(t, r, db.items[r].folder, db.items[r].name);
    assert back.items == db.items;
    EventDropped(db, back, user, e);
  }

  lemma ExportUndone(db: Db, e: Id, now: int, user: Id, i: Id)
    requires Inv(db) && i in db.exports && db.exports[i].user == user && !db.exports[i].deleted && e !in db.events
    ensures forall d :: ExportReturned(TrashExport(db, e, now, i), d, i, e) ==> d == db
  {
    assert ExportOk(db, i);
    forall d | ExportReturned(TrashExport(db, e, now, i), d, i, e) ensures d == db {
      assert d.exports == db.exports;
      NothingRefers(db, d, e);
    }
  }

  /** In any reachable state, trashing a node and restoring it, whichever node it is, meets no
      collision and gives back the very same tables. */
  lemma RestoreUndoesTrash(db: Db, e: Id, now: int, user: Id, node: Root, later: int)
    requires Inv(db) && S.OwnActiveNode(db, user, node) && e !in db.events
    ensures var t := S.Trash(db, e, now, node);
      && Inv(t) && S.OwnTrashedNode(t, user, node) && S.OpenConflicts(t, user, node, map[], later) == {}
      && forall d :: S.Restored(t, d, user, node, map[], later) ==> d == db
  {
    var t := S.Trash(db, e, now, node);
    S.TrashKeeps(db, e, now, node);
    match node
    case FolderRoot(f) =>
      TrashTreeStamps(db, e, now, f);
      SubtreeStep(db.folders, None, f, f);
      assert FolderOk(db, f);
      PlaceStillFree(db, e, now, f);
      FolderUndone(db, e, now, user, f);
      var c := S.RestoreOf(t, user, node, map[], later);
      WholesaleStep(c, t, f, db.folders[f].parent);
    case ItemRoot(r) =>
      ItemUndone(db, e, now, user, r);
    case ExportRoot(i) =>
      ExportUndone(db, e, now, user, i);
  }

  /** The same, run: delete, then undo. */
  method DeleteAndUndo(s: S.Store, user: Id, node: Root, now: int, later: int)
    requires Inv(s.db) && S.OwnActiveNode(s.db, user, node)
    modifies s
    ensures s.db == old(s.db)
  {
    var o, e := s.TrashNode(user, node, now);
    RestoreUndoesTrash(old(s.db), e, now, user, node, later);
    ghost var t := s.db;
    var o', conflicts := s.RestoreNode(user, node, map[], later);
    NoMembers(conflicts);
  }
}
