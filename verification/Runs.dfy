/** Whole runs of the metadata store: what holds after any sequence of requests. */
module Runs {
  import opened Base
  import opened Tables
  import opened Tree
  import opened Statements
  import opened Placement
  import opened Purging
  import S = Store

  datatype Request =
    | CreateFolder(id: Id, kind: Kind, parent: Option<Id>, name: string)
    | EnsureFolderPath(kind: Kind, parent: Option<Id>, segments: seq<string>)
    | RenameFolder(id: Id, name: string)
    | MoveFolder(id: Id, parent: Option<Id>)
    | CreateItem(r: Ref, folder: Option<Id>, name: string, blob: string)
    | RenameItem(r: Ref, name: string)
    | MoveItem(r: Ref, folder: Option<Id>)
    | CreateExport(id: Id, document: Option<Id>, name: string, blob: string)
    | Trash(node: Root, now: int)
    | Restore(node: Root, res: map<Id, Resolution>, now: int)
    | HardDelete(event: Id)
    | EmptyTrash
    | PurgeExpired(cutoff: int)

  ghost predicate Purges(q: Request) {
    q.HardDelete? || q.EmptyTrash? || q.PurgeExpired?
  }

  /** Every document, signature and export of `a` is still there, its owner's, on its blob, and with its document. */
  ghost predicate Conserved(a: Db, b: Db) {
    && (forall r :: r in a.items ==>
      r in b.items && b.items[r].user == a.items[r].user && b.items[r].blob == a.items[r].blob)
    && (forall i :: i in a.exports ==>
          i in b.exports && b.exports[i].user == a.exports[i].user && b.exports[i].blob == a.exports[i].blob
          && b.exports[i].document == a.exports[i].document)
  }

  /** A row is active, or it is in exactly the one event it names, which exists and is its owner's. */
  ghost predicate Accounted(b: Db) {
    && (forall r :: r in b.items ==>
          var x := b.items[r];
          if x.deleted then x.event.Some? && x.event.value in b.events && b.events[x.event.value].user == x.user
            else x.event.None?)
    && (forall i :: i in b.exports ==>
          var x := b.exports[i];
          if x.deleted then x.event.Some? && x.event.value in b.events && b.events[x.event.value].user == x.user
            else x.event.None?)
  }

  lemma EverythingAccounted(db: Db)
    requires Inv(db)
    ensures Accounted(db)
  {
    forall r | r in db.items ensures ItemOk(db, r) {
    }
    forall i | i in db.exports ensures ExportOk(db, i) {
    }
  }

  lemma TrashConserves(db: Db, e: Id, now: int, node: Root)
    requires Inv(db) && e !in db.events && exists user :: S.OwnActiveNode(db, user, node)
    ensures Conserved(db, S.Trash(db, e, now, node))
  {
  }

  /** Whatever resolutions are given: an override moves an item to the trash, it destroys none. */
  lemma RestoreConserves(a: Db, d: Db, user: Id, node: Root, res: map<Id, Resolution>, now: int)
    requires Inv(a) && S.OwnTrashedNode(a, user, node) && S.Restored(a, d, user, node, res, now)
    ensures Conserved(a, d)
  {
    if !node.ExportRoot? {
      var c := S.RestoreOf(a, user, node, res, now);
      var Y := S.ItemsIn(a, node, c.event);
      forall r | r in a.items
        ensures r in d.items && d.items[r].user == a.items[r].user && d.items[r].blob == a.items[r].blob
      {
        assert ItemPlaced(c, a, d, Y, r);
      }
    }
  }

  /** An active folder's ancestors are all active, its owner's and of its tree. */
  lemma {:induction false} ActiveAncestors(db: Db, top: Id, f: Id)
    requires Inv(db) && f in db.folders && !db.folders[f].deleted && Under(db.folders, top, f)
    ensures top in db.folders && !db.folders[top].deleted
    ensures db.folders[top].user == db.folders[f].user && db.folders[top].kind == db.folders[f].kind
    decreases |Paths(db.folders)[f]|
  {
    assert FolderOk(db, f);
    ParentPath(db.folders, f);
    if f != top {
      assert FolderOk(db, db.folders[f].parent.value);
      ActiveAncestors(db, top, db.folders[f].parent.value);
    }
  }

  /** Serves one request of a user, whatever comes of it. */
  method Serve(s: S.Store, user: Id, q: Request)
    requires Inv(s.db)
    modifies s
    ensures Inv(s.db)
    ensures !Purges(q) ==> Conserved(old(s.db), s.db)
  {
    ghost var a := s.db;
    match q {
      case CreateFolder(id, kind, parent, name) =>
        var o := s.CreateFolder(id, user, kind, parent, name);
      case EnsureFolderPath(kind, parent, segments) =>
        var o, leaf := s.EnsureFolderPath(user, kind, parent, segments);
      case RenameFolder(id, name) =>
        var o := s.RenameFolder(user, id, name);
      case MoveFolder(id, parent) =>
        var o := s.MoveFolder(user, id, parent);
      case CreateItem(r, folder, name, blob) =>
        var o := s.CreateItem(r, user, folder, name, blob);
      case RenameItem(r, name) =>
        var o := s.RenameItem(r, user, name);
      case MoveItem(r, folder) =>
        var o := s.MoveItem(r, user, folder);
      case CreateExport(id, document, name, blob) =>
        var o := s.CreateExport(id, user, document, name, blob);
      case Trash(node, now) =>
        var o, e := s.TrashNode(user, node, now);
        if o == Ok { TrashConserves(a, e, now, node); }
      case Restore(node, res, now) =>
        var o, conflicts := s.RestoreNode(user, node, res, now);
        if o == Ok && conflicts == [] { RestoreConserves(a, s.db, user, node, res, now); }
      case HardDelete(event) =>
        var o, paths, rows := s.HardDeleteEvent(user, event);
      case EmptyTrash =>
        var paths, rows := s.EmptyTrash(user);
      case PurgeExpired(cutoff) =>
        var paths, rows := s.PurgeExpired(cutoff);
    }
  }

  /** Any run keeps the invariant, and loses no content unless something is purged. */
  method ServeAll(s: S.Store, requests: seq<(Id, Request)>)
    requires Inv(s.db)
    modifies s
    ensures Inv(s.db) && Accounted(s.db)
    ensures (forall q :: q in requests ==> !Purges(q.1)) ==> Conserved(old(s.db), s.db)
  {
    ghost var a := s.db;
    for k := 0 to |requests|
      invariant Inv(s.db)
      invariant (forall q :: q in requests ==> !Purges(q.1)) ==> Conserved(a, s.db)
    {
      assert requests[k] in requests;
      Serve(s, requests[k].0, requests[k].1);
    }
    EverythingAccounted(s.db);
  }

  /**
   * The retention purge reads which events have expired before its own transaction begins. Whatever is served in
   * between, no folder and no item that is active when the transaction runs is deleted or refiled, and no active export
   * either unless its document is in one of those events; what is deleted is what `Purged` says of them.
   */
  method PurgeExpiredLate(s: S.Store, cutoff: int, between: seq<(Id, Request)>)
    returns (paths: seq<string>, ghost mid: Db)
    requires Inv(s.db)
    modifies s
    ensures Inv(mid) && Inv(s.db) && s.db == Purged(mid, S.Expired(old(s.db), cutoff))
    ensures S.AgedOut(old(s.db), mid, s.db, cutoff)
    ensures forall r :: r in mid.items && !mid.items[r].deleted ==> r in s.db.items && s.db.items[r] == mid.items[r]
    ensures forall f :: f in mid.folders && !mid.folders[f].deleted ==>
      f in s.db.folders && s.db.folders[f] == mid.folders[f]
    ensures forall i ::
      i in mid.exports && !mid.exports[i].deleted && !RidesWith(mid, i, S.Expired(old(s.db), cutoff)) ==>
      i in s.db.exports && s.db.exports[i] == mid.exports[i]
    ensures BlobsApart(mid) ==> Members(paths) == References(mid) - References(s.db) && Distinct(paths)
  {
    var events := s.ReadExpired(cutoff);
    ghost var was, E := s.db, Members(events);
    ServeAll(s, between);
    mid := s.db;
    ghost var rows;
    paths, rows := s.PurgeEvents(events);
    S.ExpiredAgedOut(was, mid, cutoff);
    ActiveOutlives(mid, E);
    if BlobsApart(mid) { FreedPaths(mid, E, rows, paths); }
  }

  /** Ensuring a path a second time finds the same leaf and changes nothing, at the root or below any folder. */
  method EnsureTwice(s: S.Store, user: Id, kind: Kind, parent: Option<Id>, segments: seq<string>)
    returns (leaf: Option<Id>, again: Option<Id>, ghost once: Db)
    requires Inv(s.db) && S.ParentFits(s.db, user, kind, parent)
    modifies s
    ensures again == leaf && s.db == once
    ensures Grown(old(s.db), once, user, kind, PathOf(old(s.db).folders, parent) + S.Segments(segments))
  {
    ghost var path := PathOf(s.db.folders, parent) + S.Segments(segments);
    var o, o';
    o, leaf := s.EnsureFolderPath(user, kind, parent, segments);
    once := s.db;
    assert PathOf(once.folders, parent) + S.Segments(segments) == path;
    OnePlace(once, user, kind, leaf, leaf);
    if leaf.None? { assert path == []; }
    o', again := s.EnsureFolderPath(user, kind, parent, segments);
    OnePlace(once, user, kind, leaf, again);
  }
}
