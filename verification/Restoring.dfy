/** The restore transaction: rebuild the way to the original place, then merge by name. */
module Restoring {
  import opened Base
  import opened Tables
  import opened Tree
  import opened Text
  import opened Statements
  import opened Trashing
  import opened Untrashing
  import opened Placement
  import opened Steps
  import opened RestoreSteps
  import opened Queries

  /** An active place with the path of a trashed item, where its name is free. */
  ghost predicate ItemLanding(a: Db, r: Ref, at: Option<Id>)
    requires r in a.items
  {
    Destination(a.folders, a.items[r].user, r.kind, at) && PathOf(a.folders, at) == ItemPath(a, r) && !Taken(a, r)
  }

  /** When the original place is there and free, the item goes back and its event, if empty, goes. */
  ghost predicate ItemReturned(c: Restore, a: Db, d: Db, r: Ref)
    requires r in a.items
  {
    forall at | ItemLanding(a, r, at) :: d == Cleanup(UntrashItem(a, r, at, a.items[r].name), c.user, c.event)
  }

  lemma OneHandled(c: Restore, a: Db, r: Ref)
    requires r in a.items && r.kind == c.kind && a.items[r].user == c.user && a.items[r].event == Some(c.event)
    ensures Handled(c, a, {}, {r})
  {
  }

  /** When the original place is there and free, the subtree goes back and its event, if empty, goes. */
  ghost predicate FolderReturned(c: Restore, a: Db, d: Db, node: Id)
    requires node in a.folders
  {
    forall at | Landing(a, node, at) ::
      var S := Subtree(a.folders, Some(c.event), node);
      d == Cleanup(UntrashTree(a, c.user, c.kind, c.event, node, at, S), c.user, c.event)
  }

  /** The export is active again, its event is gone if nothing refers to it any more, and nothing else changed. */
  ghost predicate ExportReturned(a: Db, d: Db, i: Id, e: Id)
    requires i in a.exports
  {
    && d.folders == a.folders && d.items == a.items
    && d.exports == a.exports[i := a.exports[i].(deleted := false, event := None)]
    && d.events == if Referenced(d, e) then a.events else a.events - {e}
  }

  class RestoreState {
    var tx: Db
    const user: Id
    const res: map<Id, Resolution>
    const now: int
    var event: Id
    var kind: Kind
    var conflicts: seq<Conflict>

    constructor (tx: Db, user: Id, res: map<Id, Resolution>, now: int)
      ensures this.tx == tx && this.user == user && this.res == res && this.now == now && conflicts == []
    {
      this.tx, this.user, this.res, this.now := tx, user, res, now;
      event, kind, conflicts := 0, Document, [];
    }

    ghost function Ctx(): Restore
      reads this`kind, this`event
    {
      Restore(user, kind, event, res, now)
    }

    // --- queries ---

    method ActiveItemByName(folder: Option<Id>, name: string) returns (found: Option<Ref>)
      ensures found.Some? ==> ActiveItemNamed(tx.items, found.value, kind, user, folder, name)
      ensures found.None? ==> !ItemNameTaken(tx.items, kind, user, folder, name, None)
    {
      if r :|
        r in tx.items && r.kind == kind && tx.items[r].user == user && tx.items[r].folder == folder
        && tx.items[r].name == name && !tx.items[r].deleted
      {
        found := Some(r);
      } else {
        found := None;
      }
    }

    /** Walking up `parent_id` through rows in any state spells the folder's path. */
    method AncestorNames(start: Option<Id>) returns (names: Path)
      requires Inv(tx)
      requires start.Some? ==> start.value in tx.folders && tx.folders[start.value].user == user
      ensures names == PathOf(tx.folders, start)
    {
      names := [];
      var cur := start;
      while cur.Some?
        invariant cur.Some? ==> cur.value in tx.folders && tx.folders[cur.value].user == user
        invariant PathOf(tx.folders, start) == PathOf(tx.folders, cur) + names
        decreases |PathOf(tx.folders, cur)|, cur.Some?
      {
        if cur.value !in tx.folders || tx.folders[cur.value].user != user {
          break;
        }
        ParentPath(tx.folders, cur.value);
        assert FolderOk(tx, cur.value);
        names := [tx.folders[cur.value].name] + names;
        cur := tx.folders[cur.value].parent;
      }
    }

    /** The recursive query for the part of the event below a folder: each row once. */
    method InEventSubtreeFolderIds(top: Id) returns (ids: seq<Id>)
      requires Inv(tx) && top in tx.folders && tx.folders[top].user == user
      ensures Distinct(ids)
      ensures (set f | f in ids) == Subtree(tx.folders, Some(event), top)
    {
      ids := SubtreeIds(tx, user, Some(event), top);
    }

    // --- the way to the original place ---

    /** Reusing the active folder of each name, or creating it, leads to an active place with the
        path asked for. Only prefixes of that path are created, and nothing when it is active already. */
    method ResolvePath(names: Path) returns (dest: Option<Id>)
      requires Inv(tx)
      modifies this`tx
      ensures Grown(old(tx), tx, user, kind, names)
      ensures Destination(tx.folders, user, kind, dest) && PathOf(tx.folders, dest) == names
      ensures ActiveAt(old(tx.folders), user, kind, names) || names == [] ==> tx == old(tx)
    {
      dest := None;
      ReachedStart(tx, user, kind, names, 0, None);
      for i := 0 to |names|
        invariant Reached(old(tx), tx, user, kind, names, i, dest) && (i == 0 ==> tx == old(tx))
      {
        var to, id := FindOrCreate(tx, user, kind, dest, names[i], old(tx), names, i);
        tx, dest := to, Some(id);
      }
      ReachedEnd(old(tx), tx, user, kind, names, dest);
    }

    // --- one item ---

    method RecordConflict(r: Ref, name: string, dest: Option<Id>)
      requires Inv(tx) && Destination(tx.folders, user, kind, dest) && r.kind == kind
      modifies this`conflicts
      ensures conflicts == old(conflicts) + [Conflict(r.kind, r.id, name, PathLabel(PathOf(tx.folders, dest)))]
    {
      var names := AncestorNames(dest);
      conflicts := conflicts + [Conflict(r.kind, r.id, name, PathLabel(names))];
    }

    method TrashLeafAsEvent(r: Ref)
      requires r in tx.items && !tx.items[r].deleted
      modifies this`tx
      ensures exists e :: e !in old(tx.events) && tx == TrashItem(old(tx), e, now, r)
    {
      var e := NewId(tx.events.Keys);
      tx := TrashItem(tx, e, now, r);
    }

    /** Un-trashes an item into its destination, or settles a name collision as its resolution says. */
    method PlaceItem(r: Ref, name: string, dest: Option<Id>)
      requires Inv(tx) && Returning(Ctx(), tx, r, dest) && name == tx.items[r].name
      modifies this`tx, this`conflicts
      ensures ItemStep(Ctx(), old(tx), tx, r, old(conflicts), conflicts)
      ensures Decided(Ctx(), old(tx), tx, r, dest, old(conflicts), conflicts)
    {
      ghost var c, a, q := Ctx(), tx, conflicts;
      TakenByName(c, a, r, dest);
      var blocker := ActiveItemByName(dest, name);
      if blocker.None? {
        tx := UntrashItem(tx, r, dest, name);
        ReturnDecided(c, a, r, dest, name, q);
        return;
      }
      if r.id !in res {
        RecordConflict(r, name, dest);
        LeaveDecided(c, a, r, dest, name, q, conflicts);
        return;
      }
      match res[r.id].action
      case Skip =>
        LeaveDecided(c, a, r, dest, name, q, conflicts);
      case Rename =>
        var newName := TrimSpace(res[r.id].newName);
        if newName == "" {
          RecordConflict(r, name, dest);
          LeaveDecided(c, a, r, dest, name, q, conflicts);
          return;
        }
        var taken := ActiveItemByName(dest, newName);
        if taken.Some? {
          RecordConflict(r, newName, dest);
          LeaveDecided(c, a, r, dest, newName, q, conflicts);
          return;
        }
        tx := UntrashItem(tx, r, dest, newName);
        ReturnDecided(c, a, r, dest, newName, q);
      case Override =>
        TrashLeafAsEvent(blocker.value);
        tx := UntrashItem(tx, r, dest, name);
        OverrideDecided(c, a, tx, r, dest, blocker.value, q);
      case Unrecognized =>
        RecordConflict(r, name, dest);
        LeaveDecided(c, a, r, dest, name, q, conflicts);
    }

    // --- a folder ---

    method InEventChildFolders(parent: Id) returns (q: seq<Id>)
      ensures Distinct(q)
      ensures forall f :: f in q <==>
        && f in tx.folders && tx.folders[f].user == user
        && tx.folders[f].parent == Some(parent) && tx.folders[f].event == Some(event)
    {
      q := Rows(set f | f in tx.folders && tx.folders[f].user == user && tx.folders[f].parent == Some(parent)
        && tx.folders[f].event == Some(event));
    }

    method InEventChildItems(parent: Id) returns (q: seq<Ref>)
      ensures Distinct(q)
      ensures forall r :: r in q <==>
        && r in tx.items && r.kind == kind && tx.items[r].user == user
        && tx.items[r].folder == Some(parent) && tx.items[r].event == Some(event)
    {
      q := Rows(set r | r in tx.items && r.kind == kind && tx.items[r].user == user
        && tx.items[r].folder == Some(parent) && tx.items[r].event == Some(event));
    }

    method UntrashFolderWholesale(node: Id, dest: Option<Id>)
      requires Inv(tx) && event in tx.events && Arriving(Ctx(), tx, node, dest) && Landing(tx, node, dest)
      modifies this`tx
      ensures var S := Subtree(old(tx.folders), Some(event), node);
        && FolderStep(Ctx(), old(tx), tx, node, conflicts, conflicts)
        && tx == UntrashTree(old(tx), user, kind, event, node, dest, S)
    {
      var ids := InEventSubtreeFolderIds(node);
      WholesaleDecided(Ctx(), tx, node, dest, conflicts);
      var members := set f | f in ids;
      assert members == Subtree(tx.folders, Some(event), node);
      tx := UntrashTree(tx, user, kind, event, node, dest, members);
    }

    /** Restores a trashed folder under `dest`: un-trashed with everything below it when no active
        folder bears its name there, otherwise merged, child by child, into the one that does. */
    method PlaceFolder(node: Id, name: string, dest: Option<Id>)
      requires Inv(tx) && event in tx.events && Arriving(Ctx(), tx, node, dest) && name == tx.folders[node].name
      modifies this`tx, this`conflicts
      ensures FolderStep(Ctx(), old(tx), tx, node, old(conflicts), conflicts)
      ensures Landing(old(tx), node, dest) ==>
        && conflicts == old(conflicts)
        && tx == UntrashTree(old(tx), user, kind, event, node, dest, Subtree(old(tx.folders), Some(event), node))
      decreases Subtree(tx.folders, Some(event), node), 1
    {
      var into := ActiveFolderByName(tx, user, kind, dest, name);
      if into.None? {
        UntrashFolderWholesale(node, dest);
      } else {
        MergeFolder(node, dest, into.value);
      }
    }

    method InEventChildCount(parent: Id) returns (n: nat)
      ensures n > 0 <==> HoldsSome(tx, Ctx(), parent)
    {
      var folders := InEventChildFolders(parent);
      var items := InEventChildItems(parent);
      n := |folders| + |items|;
      if folders != [] { assert folders[0] in folders; }
      if items != [] { assert items[0] in items; }
    }

    /** The folder goes, its stray children re-homed, exactly when nothing of the event is left in it. */
    method RemoveMerged(node: Id, into: Id, ghost a: Db, ghost q: seq<Conflict>)
      requires Emptying(Ctx(), a, tx, node, into, Carried(a, event, {node}), q, conflicts)
      modifies this`tx
      ensures FolderStep(Ctx(), a, tx, node, q, conflicts)
      ensures tx == if HoldsSome(old(tx), Ctx(), node) then old(tx) else MergeAway(old(tx), user, kind, node, into)
    {
      ghost var b := tx;
      var remaining := InEventChildCount(node);
      if remaining == 0 {
        tx := MergeAway(tx, user, kind, node, into);
      }
      assert tx == if HoldsSome(b, Ctx(), node) then b else MergeAway(b, user, kind, node, into);
      FolderDone(Ctx(), a, b, node, into, Carried(a, event, {node}), q, conflicts);
    }

    method PlaceChildItem(
      node: Id, into: Id, r: Ref, name: string, ghost a: Db, ghost done: set<Ref>, ghost q: seq<Conflict>)
      requires Emptying(Ctx(), a, tx, node, into, done, q, conflicts)
      requires r in a.items && r in Carried(a, event, {node}) && r !in done && name == a.items[r].name
      modifies this`tx, this`conflicts
      ensures Emptying(Ctx(), a, tx, node, into, done + {r}, q, conflicts)
    {
      ItemTurn(Ctx(), a, tx, node, into, done, r, q, conflicts);
      ghost var b, q' := tx, conflicts;
      PlaceItem(r, name, Some(into));
      ItemDone(Ctx(), a, b, tx, node, into, done, r, q, q', conflicts);
    }

    method PlaceChildItems(node: Id, into: Id, ghost a: Db, ghost q: seq<Conflict>)
      requires Merged(Ctx(), a, tx, node, into, Children(a.folders, Some(event), node), q, conflicts)
      modifies this`tx, this`conflicts
      ensures Emptying(Ctx(), a, tx, node, into, Carried(a, event, {node}), q, conflicts)
    {
      EmptyingStarts(Ctx(), a, tx, node, into, q, conflicts);
      var before := tx;
      var childItems := InEventChildItems(node);
      ItemsRemain(Ctx(), a, before, node, into, childItems, q, conflicts);
      ghost var done: set<Ref> := {};
      AllRows(childItems);
      for i := 0 to |childItems|
        invariant done == Members(childItems[..i])
        invariant Emptying(Ctx(), a, tx, node, into, done, q, conflicts)
      {
        var r := childItems[i];
        RowTurn(childItems, i);
        PlaceChildItem(node, into, r, before.items[r].name, a, done, q);
        done := done + {r};
      }
    }

    /** Merges a trashed folder into the active folder of its path: children, then items, then itself. */
    method MergeFolder(node: Id, dest: Option<Id>, into: Id)
      requires Inv(tx) && event in tx.events && Arriving(Ctx(), tx, node, dest)
      requires into in tx.folders && ActiveNamesake(tx.folders[into], user, kind, dest, tx.folders[node].name)
      modifies this`tx, this`conflicts
      ensures FolderStep(Ctx(), old(tx), tx, node, old(conflicts), conflicts)
      decreases Subtree(tx.folders, Some(event), node), 0
    {
      ghost var a, q := tx, conflicts;
      MergingReady(Ctx(), a, node, dest, into);
      PlaceChildFolders(node, into);
      PlaceChildItems(node, into, a, q);
      RemoveMerged(node, into, a, q);
    }

    method PlaceChildFolders(node: Id, into: Id)
      requires event in tx.events && Merging(Ctx(), tx, node, into)
      requires forall f :: f in Children(tx.folders, Some(event), node) ==> tx.folders[f].user == user
      modifies this`tx, this`conflicts
      ensures var kids := Children(old(tx.folders), Some(event), node);
        Merged(Ctx(), old(tx), tx, node, into, kids, old(conflicts), conflicts)
      decreases Subtree(tx.folders, Some(event), node), 0, 1
    {
      ghost var a, q := tx, conflicts;
      var before := tx;
      var childFolders := InEventChildFolders(node);
      ghost var done: set<Id> := {};
      AllRows(childFolders);
      assert Members(childFolders) == Children(a.folders, Some(event), node);
      MergingStarts(Ctx(), a, node, into, q);
      for i := 0 to |childFolders|
        invariant done == Members(childFolders[..i])
        invariant Merged(Ctx(), a, tx, node, into, done, q, conflicts)
      {
        var child := childFolders[i];
        RowTurn(childFolders, i);
        PlaceChildFolder(node, into, child, before.folders[child].name, a, done, q);
        done := done + {child};
      }
    }

    method PlaceChildFolder(
      node: Id, into: Id, child: Id, name: string, ghost a: Db, ghost done: set<Id>, ghost q: seq<Conflict>)
      requires Merged(Ctx(), a, tx, node, into, done, q, conflicts)
      requires child in Children(a.folders, Some(event), node) && child !in done && name == a.folders[child].name
      modifies this`tx, this`conflicts
      ensures Merged(Ctx(), a, tx, node, into, done + {child}, q, conflicts)
      decreases Subtree(a.folders, Some(event), node), 0, 0
    {
      ghost var b, q' := tx, conflicts;
      ChildTurn(Ctx(), a, b, node, into, done, child, q, q');
      PlaceFolder(child, name, Some(into));
      ChildDone(Ctx(), a, b, tx, node, into, done, child, q, q', conflicts);
    }

    // --- the three entry points ---

    /** Drops the event exactly when no row of any table refers to it; every content row and every other event stays. */
    method CleanupEvent()
      requires Inv(tx) && event in tx.events && tx.events[event].user == user
      modifies this`tx
      ensures Inv(tx) && (event in tx.events <==> Referenced(tx, event))
      ensures tx.folders == old(tx).folders && tx.items == old(tx).items && tx.exports == old(tx).exports
      ensures tx.events == old(tx).events || tx.events == old(tx).events - {event}
      ensures tx == Cleanup(old(tx), user, event)
    {
      CleanupKeeps(tx, user, event);
      var folders := exists f :: f in tx.folders && tx.folders[f].event == Some(event);
      var items := exists r :: r in tx.items && tx.items[r].event == Some(event);
      var exports := exists i :: i in tx.exports && tx.exports[i].event == Some(event);
      if !folders && !items && !exports && tx.events[event].user == user {
        tx := DeleteEvent(tx, event);
      }
    }

    method RestoreExport(i: Id) returns (o: Outcome)
      requires Inv(tx)
      modifies this`tx, this`event
      ensures o
        == if i in old(tx).exports && old(tx).exports[i].user == user && old(tx).exports[i].deleted then Ok
           else Fail(NotFound)
      ensures o == Ok ==>
        old(tx).exports[i].event == Some(event) && ExportReturned(old(tx), tx, i, event) && Inv(tx)
      ensures o != Ok ==> tx == old(tx)
    {
      if i !in tx.exports || tx.exports[i].user != user || !tx.exports[i].deleted {
        return Fail(NotFound);
      }
      assert ExportOk(tx, i);
      event := tx.exports[i].event.value;
      SetExportKeeps(tx, i, UntrashExport(tx, i).exports[i]);
      tx := UntrashExport(tx, i);
      CleanupEvent();
      return Ok;
    }

    method ReturnItem(r: Ref, name: string, folder: Option<Id>)
      requires Inv(tx) && conflicts == [] && r in tx.items && tx.items[r].user == user && r.kind == kind
      requires tx.items[r].event == Some(event) && name == tx.items[r].name && folder == tx.items[r].folder
      modifies this`tx, this`conflicts
      ensures Settling(Ctx(), ItemPath(old(tx), r), old(tx), tx, {}, {r}, conflicts)
      ensures forall at | ItemLanding(old(tx), r, at) :: tx == UntrashItem(old(tx), r, at, name)
    {
      ghost var a := tx;
      assert ItemOk(tx, r);
      var names := AncestorNames(folder);
      var dest := ResolvePath(names);
      ghost var b := tx;
      ItemArrives(Ctx(), a, b, names, r, dest);
      PlaceItem(r, name, dest);
      OneHandled(Ctx(), a, r);
      ItemLeadIn(Ctx(), a, b, tx, names, r, conflicts);
      forall at | ItemLanding(a, r, at) ensures tx == UntrashItem(a, r, at, name) {
        OnePlace(a, user, kind, at, at);
        OnlyRootIsEmpty(a.folders, at);
        assert b == a;
        OnePlace(a, user, kind, at, dest);
      }
    }

    /** Restores one item to its original path. */
    method RestoreItem(r: Ref) returns (o: Outcome)
      requires Inv(tx) && conflicts == []
      modifies this`tx, this`conflicts, this`event, this`kind
      ensures o
        == if r in old(tx).items && old(tx).items[r].user == user && old(tx).items[r].deleted then Ok
           else Fail(NotFound)
      ensures o == Ok ==> kind == r.kind && Some(event) == old(tx).items[r].event
      ensures o == Ok ==> Finished(Ctx(), ItemPath(old(tx), r), old(tx), tx, {}, {r}, conflicts)
      ensures o == Ok ==> ItemReturned(Ctx(), old(tx), tx, r)
    {
      if r !in tx.items || tx.items[r].user != user || !tx.items[r].deleted {
        return Fail(NotFound);
      }
      ghost var a := tx;
      assert ItemOk(tx, r);
      event, kind := tx.items[r].event.value, r.kind;
      ReturnItem(r, tx.items[r].name, tx.items[r].folder);
      CloseUp(Ctx(), ItemPath(a, r), a, tx, {}, {r}, conflicts);
      CleanupEvent();
      return Ok;
    }

    method ReturnFolder(node: Id, name: string, parent: Option<Id>)
      requires Inv(tx) && conflicts == [] && node in tx.folders && tx.folders[node].user == user
        && tx.folders[node].kind == kind
      requires tx.folders[node].event == Some(event) && name == tx.folders[node].name
        && parent == tx.folders[node].parent
      modifies this`tx, this`conflicts
      ensures var S := Subtree(old(tx).folders, Some(event), node);
        Settling(Ctx(), PathOf(old(tx).folders, parent), old(tx), tx, S, Carried(old(tx), event, S), conflicts)
      ensures forall at | Landing(old(tx), node, at) ::
        tx == UntrashTree(old(tx), user, kind, event, node, at, Subtree(old(tx).folders, Some(event), node))
    {
      ghost var a := tx;
      ghost var S := Subtree(a.folders, Some(event), node);
      assert FolderOk(tx, node);
      ParentPath(a.folders, node);
      if parent.Some? { assert FolderOk(a, parent.value); }
      var names := AncestorNames(parent);
      var dest := ResolvePath(names);
      ghost var b := tx;
      FolderArrives(Ctx(), a, b, names, node, dest);
      PlaceFolder(node, name, dest);
      FolderLeadIn(Ctx(), a, b, tx, names, node, conflicts);
      PartExtends(Ctx(), a, b, names, node);
      forall at | Landing(a, node, at) ensures tx == UntrashTree(a, user, kind, event, node, at, S) {
        OnePlace(a, user, kind, at, at);
        OnlyRootIsEmpty(a.folders, at);
        assert b == a;
        OnePlace(a, user, kind, at, dest);
      }
    }

    /** Restores a trashed folder, with everything its event holds below it, to its original path. */
    method RestoreFolder(node: Id) returns (o: Outcome)
      requires Inv(tx) && conflicts == []
      modifies this`tx, this`conflicts, this`event, this`kind
      ensures o
        == if node in old(tx).folders && old(tx).folders[node].user == user && old(tx).folders[node].deleted then Ok
           else Fail(NotFound)
      ensures o == Ok ==> kind == old(tx).folders[node].kind && Some(event) == old(tx).folders[node].event
      ensures o == Ok ==> var S := Subtree(old(tx).folders, Some(event), node);
        Finished(Ctx(), PathOf(old(tx).folders, old(tx).folders[node].parent), old(tx), tx, S,
          Carried(old(tx), event, S), conflicts)
      ensures o == Ok ==> FolderReturned(Ctx(), old(tx), tx, node)
    {
      if node !in tx.folders || tx.folders[node].user != user || !tx.folders[node].deleted {
        return Fail(NotFound);
      }
      ghost var a := tx;
      assert FolderOk(tx, node);
      event, kind := tx.folders[node].event.value, tx.folders[node].kind;
      ReturnFolder(node, tx.folders[node].name, tx.folders[node].parent);
      ghost var S := Subtree(a.folders, Some(event), node);
      CloseUp(Ctx(), PathOf(a.folders, a.folders[node].parent), a, tx, S, Carried(a, event, S), conflicts);
      CleanupEvent();
      return Ok;
    }
  }
}
