/** The metadata store: each method is one transaction on the tables, committed whole or not at all. */
module Store {
  import opened Base
  import opened Tables
  import opened Tree
  import opened Text
  import opened Statements
  import opened Trashing
  import opened Untrashing
  import opened Placement
  import opened Steps
  import opened Outcomes
  import opened Restoring
  import opened Purging
  import opened Queries

  /** Where a new folder or a moved one may go: an active folder of the caller's in the same tree, or the root. */
  ghost predicate ParentFits(db: Db, user: Id, kind: Kind, parent: Option<Id>) {
    parent.Some? ==> OwnActiveFolder(db.folders, user, parent.value) && db.folders[parent.value].kind == kind
  }

  method ValidateFolder(db: Db, user: Id, kind: Kind, parent: Option<Id>) returns (ok: bool)
    ensures ok <==> ParentFits(db, user, kind, parent)
  {
    if parent.None? { return true; }
    var found := RequireActiveFolder(db, user, parent.value);
    ok := found == Some(kind);
  }

  /** The names an uploaded path asks for: trimmed, blanks skipped. */
  ghost function Segments(raw: seq<string>): Path {
    if raw == [] then []
    else (if TrimSpace(raw[0]) == "" then [] else [TrimSpace(raw[0])]) + Segments(raw[1..])
  }

  lemma {:induction false} SegmentsGrow(raw: seq<string>, i: nat)
    requires i < |raw|
    ensures Segments(raw[..i + 1]) == Segments(raw[..i]) + if TrimSpace(raw[i]) == "" then [] else [TrimSpace(raw[i])]
  {
    if i == 0 {
      assert raw[..1] == [raw[0]] && raw[..1][1..] == [];
    } else {
      assert raw[..i + 1][1..] == raw[1..][..i] && raw[..i][1..] == raw[1..][..i - 1];
      SegmentsGrow(raw[1..], i - 1);
    }
  }

  lemma {:induction false} SegmentsPrefix(raw: seq<string>, i: nat)
    requires i <= |raw|
    ensures Segments(raw[..i]) <= Segments(raw)
    decreases |raw| - i
  {
    if i == |raw| {
      assert raw[..i] == raw;
    } else {
      SegmentsPrefix(raw, i + 1);
      SegmentsGrow(raw, i);
    }
  }

  /** Segments without blanks at their ends are taken as they are. */
  lemma {:induction false} NeatSegments(raw: seq<string>)
    requires forall name :: name in raw ==> Neat(name)
    ensures Segments(raw) == raw
  {
    if raw != [] {
      NeatStays(raw[0]);
      NeatSegments(raw[1..]);
    }
  }

  /** A blank segment adds nothing; any other is the next name of the path. */
  lemma PathStep(base: Path, segments: seq<string>, i: nat)
    requires i < |segments|
    ensures var path, name := base + Segments(segments), TrimSpace(segments[i]);
      var n, next := |base + Segments(segments[..i])|, |base + Segments(segments[..i + 1])|;
      if name == "" then next == n else |base| <= n && next == n + 1 <= |path| && path[n] == name
  {
    SegmentsGrow(segments, i);
    SegmentsPrefix(segments, i + 1);
    SegmentsPrefix(segments, i);
  }

  /** Walks down the segments from a folder, blank ones skipped, and creates what is missing. */
  method Descend(a: Db, user: Id, kind: Kind, parent: Option<Id>, segments: seq<string>)
    returns (tx: Db, cur: Option<Id>)
    requires Inv(a) && Destination(a.folders, user, kind, parent)
    ensures var path := PathOf(a.folders, parent) + Segments(segments);
      Descending(a, tx, user, kind, path, path, cur)
    ensures Segments(segments) == [] ==> tx == a
  {
    tx, cur := a, parent;
    ghost var base := PathOf(a.folders, parent);
    ghost var path: Path, n: nat := base + Segments(segments), |base|;
    ReachedStart(a, user, kind, path, n, parent);
    for i := 0 to |segments|
      invariant Reached(a, tx, user, kind, path, n, cur)
      invariant n == |base + Segments(segments[..i])| && (n == |base| ==> tx == a)
    {
      var name := TrimSpace(segments[i]);
      PathStep(base, segments, i);
      if name == "" {
        continue;
      }
      var to, id := FindOrCreate(tx, user, kind, cur, name, a, path, n);
      tx, cur, n := to, Some(id), n + 1;
    }
    assert segments[..|segments|] == segments;
    ReachedEnd(a, tx, user, kind, path, cur);
  }

  ghost function Names(chain: seq<Folder>): Path {
    if chain == [] then [] else [chain[0].name] + Names(chain[1..])
  }

  lemma {:induction false} UnderDeeper(fs: Folders, top: Id, f: Id)
    requires Grounded(fs) && Under(fs, top, f)
    ensures top in fs && |Paths(fs)[top]| <= |Paths(fs)[f]|
    decreases |Paths(fs)[f]|
  {
    ParentPath(fs, f);
    if f != top { UnderDeeper(fs, top, fs[f].parent.value); }
  }

  /** A folder is not below itself through its parent. */
  lemma ParentAbove(db: Db, id: Id)
    requires Inv(db) && id in db.folders
    ensures db.folders[id].parent.Some? ==>
      db.folders[id].parent.value in db.folders && !Under(db.folders, id, db.folders[id].parent.value)
  {
    ParentPath(db.folders, id);
    if db.folders[id].parent.Some? && Under(db.folders, id, db.folders[id].parent.value) {
      UnderDeeper(db.folders, id, db.folders[id].parent.value);
    }
  }

  ghost predicate OwnActiveItem(db: Db, user: Id, r: Ref) {
    r in db.items && db.items[r].user == user && !db.items[r].deleted
  }

  /** An active item is filed in an active place. */
  lemma ActiveFiled(db: Db, r: Ref)
    requires Inv(db) && r in db.items && !db.items[r].deleted
    ensures db.items[r].event.None? && Destination(db.folders, db.items[r].user, r.kind, db.items[r].folder)
  {
    assert ItemOk(db, r);
    if db.items[r].folder.Some? { assert FolderOk(db, db.items[r].folder.value); }
  }

  lemma {:induction false} SubtreeInside(db: Db, top: Id, f: Id)
    requires Inv(db) && f in Subtree(db.folders, None, top)
    ensures Under(db.folders, top, f)
    decreases |Paths(db.folders)[f]|
  {
    ParentPath(db.folders, f);
    if f != top { SubtreeInside(db, top, db.folders[f].parent.value); }
  }

  /** For an active folder, being in the active subtree is being below at all. */
  lemma SubtreeIsUnder(db: Db, top: Id, f: Id)
    requires Inv(db) && f in db.folders && !db.folders[f].deleted
    ensures f in Subtree(db.folders, None, top) <==> Under(db.folders, top, f)
  {
    if Under(db.folders, top, f) { ActiveUnder(db, top, f); }
    if f in Subtree(db.folders, None, top) { SubtreeInside(db, top, f); }
  }

  /** The cycle check of a move: is the new parent among the active folders at and below the moved one? */
  method InSubtree(db: Db, user: Id, id: Id, target: Id) returns (inside: bool)
    requires Inv(db) && OwnActiveFolder(db.folders, user, id) && OwnActiveFolder(db.folders, user, target)
    ensures inside <==> Under(db.folders, id, target)
  {
    assert FolderOk(db, id);
    var subtree := SubtreeIds(db, user, None, id);
    SubtreeIsUnder(db, id, target);
    assert target in subtree <==> target in Subtree(db.folders, None, id);
    inside := target in subtree;
  }

  lemma MoveRelocates(db: Db, id: Id, parent: Option<Id>)
    requires Inv(db) && id in db.folders && !db.folders[id].deleted
    requires var f := db.folders[id];
      && ParentFits(db, f.user, f.kind, parent)
      && !FolderNameTaken(db.folders, f.user, f.kind, parent, f.name, Some(id))
    requires parent.Some? ==> !Under(db.folders, id, parent.value)
    ensures var to := SetFolder(db, id, db.folders[id].(parent := parent));
      && Inv(to) && Relocated(db.folders, to.folders, id, PathOf(db.folders, parent) + [db.folders[id].name])
  {
    if parent.Some? {
      SubtreeIsUnder(db, id, parent.value);
      assert FolderOk(db, parent.value);
    }
    MoveFolderKeeps(db, id, parent);
    RewrittenFolder(db.folders, id, db.folders[id].(parent := parent));
  }

  ghost predicate OwnActiveNode(db: Db, user: Id, node: Root) {
    match node
    case FolderRoot(f) => OwnActiveFolder(db.folders, user, f)
    case ItemRoot(r) => OwnActiveItem(db, user, r)
    case ExportRoot(i) => i in db.exports && db.exports[i].user == user && !db.exports[i].deleted
  }

  ghost predicate OwnTrashedNode(db: Db, user: Id, node: Root) {
    match node
    case FolderRoot(f) => f in db.folders && db.folders[f].user == user && db.folders[f].deleted
    case ItemRoot(r) => r in db.items && db.items[r].user == user && db.items[r].deleted
    case ExportRoot(i) => i in db.exports && db.exports[i].user == user && db.exports[i].deleted
  }

  /** The name of a node, which becomes the title of its event. */
  ghost function TitleOf(db: Db, node: Root): string
    requires exists user :: OwnActiveNode(db, user, node)
  {
    match node
    case FolderRoot(f) => db.folders[f].name
    case ItemRoot(r) => db.items[r].name
    case ExportRoot(i) => db.exports[i].name
  }

  /** One delete action: a single new event carrying the node and, for a folder, its active subtree. */
  ghost function Trash(db: Db, e: Id, now: int, node: Root): Db
    requires exists user :: OwnActiveNode(db, user, node)
  {
    match node
    case FolderRoot(f) => TrashTree(db, e, now, f, Subtree(db.folders, None, f))
    case ItemRoot(r) => TrashItem(db, e, now, r)
    case ExportRoot(i) => TrashExport(db, e, now, i)
  }

  /** Of the rows, exactly the node, or the folder's active subtree with the active items in it, now carry the event. */
  ghost predicate Carries(a: Db, b: Db, e: Id, node: Root)
    requires exists user :: OwnActiveNode(a, user, node)
  {
    match node
    case FolderRoot(f) => Stamped(a, b, e, Subtree(a.folders, None, f))
    case ItemRoot(r) =>
      && b.items == a.items[r := a.items[r].(deleted := true, event := Some(e))]
      && b.folders == a.folders && b.exports == a.exports
    case ExportRoot(i) =>
      && b.exports == a.exports[i := a.exports[i].(deleted := true, event := Some(e))]
      && b.folders == a.folders && b.items == a.items
  }

  lemma TrashKeeps(db: Db, e: Id, now: int, node: Root)
    requires Inv(db) && e !in db.events && exists user :: OwnActiveNode(db, user, node)
    ensures Inv(Trash(db, e, now, node)) && Carries(db, Trash(db, e, now, node), e, node)
  {
    match node
    case FolderRoot(f) =>
      TrashTreeKeeps(db, e, now, f);
      TrashTreeStamps(db, e, now, f);
    case ItemRoot(r) => TrashItemKeeps(db, e, now, r);
    case ExportRoot(i) => TrashExportKeeps(db, e, now, i);
  }

  /** The restore a node asks for: out of its own event, in its own tree. */
  ghost function RestoreOf(db: Db, user: Id, node: Root, res: map<Id, Resolution>, now: int): Restore
    requires Inv(db) && OwnTrashedNode(db, user, node)
  {
    match node
    case FolderRoot(f) => assert FolderOk(db, f); Restore(user, db.folders[f].kind, db.folders[f].event.value, res, now)
    case ItemRoot(r) => assert ItemOk(db, r); Restore(user, r.kind, db.items[r].event.value, res, now)
    case ExportRoot(i) => assert ExportOk(db, i); Restore(user, Document, db.exports[i].event.value, res, now)
  }

  /** The folders and the items of its event that restoring a node concerns. */
  ghost function FoldersIn(db: Db, node: Root, e: Id): set<Id> {
    if node.FolderRoot? then Subtree(db.folders, Some(e), node.folderId) else {}
  }

  ghost function ItemsIn(db: Db, node: Root, e: Id): set<Ref> {
    match node
    case FolderRoot(f) => Carried(db, e, Subtree(db.folders, Some(e), f))
    case ItemRoot(r) => {r}
    case ExportRoot(_) => {}
  }

  /** The path a node is restored to: missing folders on it, and no others, are created. */
  ghost function Way(db: Db, node: Root): Path
    requires node.FolderRoot? ==> node.folderId in db.folders
    requires node.ItemRoot? ==> node.item in db.items
  {
    match node
    case FolderRoot(f) => PathOf(db.folders, db.folders[f].parent)
    case ItemRoot(r) => ItemPath(db, r)
    case ExportRoot(_) => []
  }

  /** What a committed restore has done. */
  ghost predicate Restored(a: Db, d: Db, user: Id, node: Root, res: map<Id, Resolution>, now: int)
    requires Inv(a) && OwnTrashedNode(a, user, node)
  {
    var c := RestoreOf(a, user, node, res, now);
    var X, Y := FoldersIn(a, node, c.event), ItemsIn(a, node, c.event);
    match node
    case FolderRoot(f) => Finished(c, Way(a, node), a, d, X, Y, []) && FolderReturned(c, a, d, f)
    case ItemRoot(r) => Finished(c, Way(a, node), a, d, X, Y, []) && ItemReturned(c, a, d, r)
    case ExportRoot(i) => ExportReturned(a, d, i, c.event)
  }

  /** Every reported conflict has its cause: an item the restore concerns, whose own name is contested and which has no
      resolution, or an unusable one, or a new name that is blank or contested too. */
  ghost predicate Caused(a: Db, user: Id, node: Root, res: map<Id, Resolution>, now: int, conflicts: seq<Conflict>)
    requires Inv(a) && OwnTrashedNode(a, user, node)
  {
    var c := RestoreOf(a, user, node, res, now);
    forall x :: x in conflicts ==> Justified(c, a, ItemsIn(a, node, c.event), x)
  }

  /** The resolutions settle every collision that can occur. */
  ghost predicate AllResolved(a: Db, user: Id, node: Root, res: map<Id, Resolution>, now: int)
    requires Inv(a) && OwnTrashedNode(a, user, node)
  {
    var c := RestoreOf(a, user, node, res, now);
    var Y := ItemsIn(a, node, c.event);
    forall r :: r in Y && r in a.items ==> Resolved(c, a, Y, r)
  }

  /** No item whose place is taken is to be renamed. */
  ghost predicate Determined(a: Db, user: Id, node: Root, res: map<Id, Resolution>, now: int)
    requires Inv(a) && OwnTrashedNode(a, user, node)
  {
    var c := RestoreOf(a, user, node, res, now);
    Plain(c, a, ItemsIn(a, node, c.event))
  }

  /** The collisions such a restore reports: items whose place is taken and that neither override nor are skipped. */
  ghost function OpenConflicts(a: Db, user: Id, node: Root, res: map<Id, Resolution>, now: int): set<Conflict>
    requires Inv(a) && OwnTrashedNode(a, user, node)
  {
    var c := RestoreOf(a, user, node, res, now);
    Conflicting(c, a, ItemsIn(a, node, c.event))
  }

  ghost predicate OncePerItem(conflicts: seq<Conflict>) {
    forall i, j :: 0 <= i < j < |conflicts| ==> conflicts[i].id != conflicts[j].id
  }

  /** What a restore, finished or about to be undone, reports. */
  lemma ReportsCaused(a: Db, user: Id, node: Root, res: map<Id, Resolution>, now: int, d: Db, conflicts: seq<Conflict>)
    requires Inv(a) && OwnTrashedNode(a, user, node)
    requires var c := RestoreOf(a, user, node, res, now);
      if node.ExportRoot? then conflicts == []
      else Reported(c, a, d, FoldersIn(a, node, c.event), ItemsIn(a, node, c.event), conflicts)
    ensures Caused(a, user, node, res, now, conflicts) && OncePerItem(conflicts)
    ensures AllResolved(a, user, node, res, now) ==> conflicts == []
  {
    var c := RestoreOf(a, user, node, res, now);
    var Y := ItemsIn(a, node, c.event);
    forall x | x in conflicts ensures Justified(c, a, Y, x) {
      var k :| 0 <= k < |conflicts| && conflicts[k] == x;
    }
    if AllResolved(a, user, node, res, now) { ResolvedCommits(c, a, Y, conflicts); }
  }

  lemma PartBeyond(a: Db, user: Id, node: Root, res: map<Id, Resolution>, now: int)
    requires Inv(a) && OwnTrashedNode(a, user, node)
    ensures var c := RestoreOf(a, user, node, res, now); Beyond(c, a, Way(a, node), FoldersIn(a, node, c.event))
  {
    var c := RestoreOf(a, user, node, res, now);
    forall f | f in FoldersIn(a, node, c.event)
      ensures a.folders[f].user == c.user && a.folders[f].kind == c.kind
      ensures |Way(a, node)| < |PathOf(a.folders, Some(f))|
    {
      SubtreeOwner(a, Some(c.event), node.folderId, f);
      SubtreePaths(a.folders, Some(c.event), node.folderId, f);
      ParentPath(a.folders, node.folderId);
      ParentPath(a.folders, f);
    }
  }

  /** Every folder the restore concerns stays, goes or comes back as the items in and below it and the active folders
      before demand. */
  lemma RestoredFolder(a: Db, d: Db, user: Id, node: Root, res: map<Id, Resolution>, now: int, f: Id)
    requires Inv(a) && OwnTrashedNode(a, user, node) && Restored(a, d, user, node, res, now)
    requires var c := RestoreOf(a, user, node, res, now); f in FoldersIn(a, node, c.event)
    ensures var c := RestoreOf(a, user, node, res, now);
      && f in a.folders
      && if Retains(c, a, d, f) then f in d.folders && d.folders[f] == a.folders[f]
         else if ActiveAt(a.folders, c.user, c.kind, PathOf(a.folders, Some(f))) then f !in d.folders
         else f in d.folders && d.folders[f].event.None?
  {
    var c := RestoreOf(a, user, node, res, now);
    PartBeyond(a, user, node, res, now);
    FolderFate(c, Way(a, node), a, d, FoldersIn(a, node, c.event), ItemsIn(a, node, c.event), [], f);
  }

  /** Unless an item whose place is taken is to be renamed, tables, node and resolutions determine what a committed
      restore leaves, up to the identifiers and times it draws. */
  lemma RestoredAlike(a: Db, d: Db, d': Db, user: Id, node: Root, res: map<Id, Resolution>, now: int)
    requires Inv(a) && OwnTrashedNode(a, user, node) && Determined(a, user, node, res, now)
    requires Restored(a, d, user, node, res, now) && Restored(a, d', user, node, res, now)
    ensures Agree(a, d, d')
  {
    var c := RestoreOf(a, user, node, res, now);
    var X, Y := FoldersIn(a, node, c.event), ItemsIn(a, node, c.event);
    match node
    case FolderRoot(f) =>
      assert FolderOk(a, f);
      PartBeyond(a, user, node, res, now);
      OutcomeDetermined(c, Way(a, node), a, d, d', X, Y, [], []);
    case ItemRoot(r) =>
      assert ItemOk(a, r);
      OutcomeDetermined(c, Way(a, node), a, d, d', X, Y, [], []);
    case ExportRoot(_) =>
  }

  lemma NamedAnew(c: Restore, way: Path, a: Db, d: Db, X: set<Id>, Y: set<Ref>, r: Ref, name: string)
    requires Inv(a) && Finished(c, way, a, d, X, Y, []) && r in Y && r in a.items
    requires Taken(a, r) && !Contested(c, a, Y, r, name)
    requires Asks(c, r, Rename) && (forall other :: Renames(c, r, other) ==> other == name)
    ensures r in d.items && d.items[r].event.None? && d.items[r].name == name && ItemPath(d, r) == ItemPath(a, r)
  {
    assert ItemPlaced(c, a, d, Y, r);
    if Displaced(c, a, d, Y, r) {
      var j :| j in Y && DisplacedBy(c, a, d, r, j);
      assert Claims(c, a, Y, r, j, d.items[r].name);
      ItemLocated(a, r, j);
    }
  }

  /** An item whose place is taken and that gets a new name, neat and contested by nothing, comes back to its path under
      exactly that name. */
  lemma RenamedItem(a: Db, d: Db, user: Id, node: Root, res: map<Id, Resolution>, now: int, r: Ref, name: string)
    requires Inv(a) && OwnTrashedNode(a, user, node) && Restored(a, d, user, node, res, now)
    requires var c := RestoreOf(a, user, node, res, now);
      r in ItemsIn(a, node, c.event) && r in a.items && !Contested(c, a, ItemsIn(a, node, c.event), r, name)
    requires Taken(a, r) && r.id in res && res[r.id] == Resolution(Rename, name) && Neat(name)
    ensures r in d.items && !d.items[r].deleted && d.items[r].name == name && ItemPath(d, r) == ItemPath(a, r)
  {
    var c := RestoreOf(a, user, node, res, now);
    NeatStays(name);
    NamedAnew(c, Way(a, node), a, d, FoldersIn(a, node, c.event), ItemsIn(a, node, c.event), r, name);
    assert ItemOk(d, r);
  }

  /** Restoring a single item with such a name is always committed. */
  lemma RenameCommits(a: Db, user: Id, r: Ref, res: map<Id, Resolution>, now: int, name: string)
    requires Inv(a) && OwnTrashedNode(a, user, ItemRoot(r))
    requires r.id in res && res[r.id] == Resolution(Rename, name) && Neat(name)
    requires forall s :: !ShowsAt(a, s, user, r.kind, ItemPath(a, r), name)
    ensures var c := RestoreOf(a, user, ItemRoot(r), res, now); !Contested(c, a, {r}, r, name)
    ensures AllResolved(a, user, ItemRoot(r), res, now)
  {
  }

  ghost function EventsOf(db: Db, user: Id): set<Id> {
    set e | e in db.events && db.events[e].user == user
  }

  ghost function Expired(db: Db, cutoff: int): set<Id> {
    set e | e in db.events && db.events[e].created < cutoff
  }

  /** An event of before the cutoff, going by the table `was`. */
  ghost predicate Aged(was: Db, e: Option<Id>, cutoff: int) {
    e.Some? && e.value in was.events && was.events[e.value].created < cutoff
  }

  /** The export's document is in such an event. */
  ghost predicate WithAged(was: Db, a: Db, i: Id, cutoff: int)
    requires i in a.exports
  {
    exists r :: r in a.items && r.kind == Document && a.exports[i].document == Some(r.id)
      && Aged(was, a.items[r].event, cutoff)
  }

  /** From `a` to `d`, exactly the events of before the cutoff are gone, with exactly the rows in them and the exports
      of the documents among these. */
  ghost predicate AgedOut(was: Db, a: Db, d: Db, cutoff: int) {
    && (forall e :: e in a.events ==> (e in d.events <==> !(e in was.events && was.events[e].created < cutoff)))
    && (forall f :: f in a.folders ==> (f in d.folders <==> !Aged(was, a.folders[f].event, cutoff)))
    && (forall r :: r in a.items ==> (r in d.items <==> !Aged(was, a.items[r].event, cutoff)))
    && (forall i :: i in a.exports ==>
          (i in d.exports <==> !Aged(was, a.exports[i].event, cutoff) && !WithAged(was, a, i, cutoff)))
  }

  lemma ExpiredAgedOut(was: Db, a: Db, cutoff: int)
    ensures AgedOut(was, a, Purged(a, Expired(was, cutoff)), cutoff)
  {
    var E := Expired(was, cutoff);
    forall o: Option<Id> ensures InEvents(o, E) <==> Aged(was, o, cutoff) {
    }
    forall i | i in a.exports ensures RidesWith(a, i, E) <==> WithAged(was, a, i, cutoff) {
      if RidesWith(a, i, E) {
        var r := Ref(Document, a.exports[i].document.value);
        assert Aged(was, a.items[r].event, cutoff);
      }
      if WithAged(was, a, i, cutoff) {
        assert Aged(was, a.items[Ref(Document, a.exports[i].document.value)].event, cutoff);
      }
    }
  }

  /** A trashed row is its event's owner's. */
  lemma OwnersAgree(a: Db)
    requires Inv(a)
    ensures forall f :: f in a.folders && a.folders[f].event.Some? ==>
      a.folders[f].event.value in a.events && a.events[a.folders[f].event.value].user == a.folders[f].user
    ensures forall r :: r in a.items && a.items[r].event.Some? ==>
      a.items[r].event.value in a.events && a.events[a.items[r].event.value].user == a.items[r].user
  {
    forall f | f in a.folders ensures FolderOk(a, f) {
    }
    forall r | r in a.items ensures ItemOk(a, r) {
    }
  }

  class Store {
    var db: Db

    constructor ()
      ensures db == EMPTY && Inv(db)
    {
      db := EMPTY;
      new;
      assert Labels(db.folders, map[]);
    }

    // --- folders ---

    method CreateFolder(id: Id, user: Id, kind: Kind, parent: Option<Id>, name: string) returns (o: Outcome)
      requires Inv(db)
      modifies this
      ensures Inv(db)
      ensures o == if !ParentFits(old(db), user, kind, parent) then Fail(NotFound)
                   else if FolderNameTaken(old(db).folders, user, kind, parent, name, None) then Fail(NameConflict)
                   else if id in old(db).folders then Fail(Constraint) else Ok
      ensures db == if o != Ok then old(db)
                    else old(db).(folders := old(db).folders[id := Folder(user, kind, parent, name, false, None)])
      ensures o == Ok ==> PathOf(db.folders, Some(id)) == PathOf(old(db).folders, parent) + [name]
    {
      var fits := ValidateFolder(db, user, kind, parent);
      if !fits { return Fail(NotFound); }
      var taken := FolderNameInUse(db, user, kind, parent, name, None);
      if taken { return Fail(NameConflict); }
      if id in db.folders { return Fail(Constraint); }
      InsertFolderKeeps(db, id, user, kind, parent, name);
      db := InsertFolder(db, id, user, kind, parent, name);
      return Ok;
    }

    /** Recreates a directory path below a folder. The leaf's path is the parent's path and then the
        trimmed segments; a path that is active already is only looked up. */
    method EnsureFolderPath(user: Id, kind: Kind, parent: Option<Id>, segments: seq<string>)
      returns (o: Outcome, leaf: Option<Id>)
      requires Inv(db)
      modifies this
      ensures o == if ParentFits(old(db), user, kind, parent) then Ok else Fail(NotFound)
      ensures o != Ok ==> db == old(db)
      ensures o == Ok ==> var path := PathOf(old(db).folders, parent) + Segments(segments);
        && Grown(old(db), db, user, kind, path)
        && Destination(db.folders, user, kind, leaf) && PathOf(db.folders, leaf) == path
        && (ActiveAt(old(db).folders, user, kind, path) || Segments(segments) == [] ==> db == old(db))
      ensures o == Ok && (forall name :: name in segments ==> Neat(name)) ==>
        PathOf(db.folders, leaf) == PathOf(old(db).folders, parent) + segments
    {
      if forall name :: name in segments ==> Neat(name) { NeatSegments(segments); }
      leaf := None;
      var fits := ValidateFolder(db, user, kind, parent);
      if !fits { return Fail(NotFound), leaf; }
      var tx, cur := Descend(db, user, kind, parent, segments);
      db := tx;
      return Ok, cur;
    }

    /** The breadcrumb of a folder: found for exactly the active folders of the user, top level first. */
    method FolderPath(user: Id, id: Id) returns (o: Outcome, chain: seq<Folder>)
      requires Inv(db)
      ensures o == if OwnActiveFolder(db.folders, user, id) then Ok else Fail(NotFound)
      ensures o == Ok ==> Names(chain) == PathOf(db.folders, Some(id))
      ensures o == Ok ==> forall k :: 0 <= k < |chain| ==> !chain[k].deleted && chain[k].user == user
      ensures o == Ok ==> chain != [] && chain[0].parent == None && chain[|chain| - 1] == db.folders[id]
    {
      chain := [];
      var cur := Some(id);
      while cur.Some?
        invariant chain == [] ==> cur == Some(id)
        invariant chain != [] ==>
          OwnActiveFolder(db.folders, user, id) && chain[|chain| - 1] == db.folders[id] && cur == chain[0].parent
        invariant cur.Some? && chain != [] ==> OwnActiveFolder(db.folders, user, cur.value)
        invariant chain != [] ==> PathOf(db.folders, Some(id)) == PathOf(db.folders, cur) + Names(chain)
        invariant forall k :: 0 <= k < |chain| ==> !chain[k].deleted && chain[k].user == user
        decreases chain == [], |PathOf(db.folders, cur)|, cur.Some?
      {
        if cur.value !in db.folders || db.folders[cur.value].user != user || db.folders[cur.value].deleted {
          return Fail(NotFound), [];
        }
        var f := db.folders[cur.value];
        ParentPath(db.folders, cur.value);
        assert FolderOk(db, cur.value);
        if f.parent.Some? { assert FolderOk(db, f.parent.value); }
        chain := [f] + chain;
        cur := f.parent;
      }
      return Ok, chain;
    }

    method RenameFolder(user: Id, id: Id, name: string) returns (o: Outcome)
      requires Inv(db)
      modifies this
      ensures Inv(db)
      ensures o == if !OwnActiveFolder(old(db).folders, user, id) then Fail(NotFound)
                   else if FolderNameTaken(old(db).folders, user, old(db).folders[id].kind,
                     old(db).folders[id].parent, name, Some(id))
                        then Fail(NameConflict) else Ok
      ensures o != Ok ==> db == old(db)
      ensures o == Ok ==>
        && db.folders.Keys == old(db).folders.Keys && db.folders[id] == old(db).folders[id].(name := name)
        && (forall f :: f in db.folders && f != id ==> db.folders[f] == old(db).folders[f])
        && db.items == old(db).items && db.exports == old(db).exports && db.events == old(db).events
      ensures o == Ok ==>
        Relocated(old(db).folders, db.folders, id, PathOf(old(db).folders, old(db).folders[id].parent) + [name])
    {
      var kind := RequireActiveFolder(db, user, id);
      if kind.None? { return Fail(NotFound); }
      var f := db.folders[id];
      var taken := FolderNameInUse(db, user, f.kind, f.parent, name, Some(id));
      if taken { return Fail(NameConflict); }
      RenameFolderKeeps(db, id, name);
      ParentAbove(db, id);
      RewrittenFolder(db.folders, id, f.(name := name));
      db := SetFolder(db, id, f.(name := name));
      return Ok;
    }

    /** A folder may go anywhere but below itself, through folders in whatever state. */
    method MoveFolder(user: Id, id: Id, parent: Option<Id>) returns (o: Outcome)
      requires Inv(db)
      modifies this
      ensures Inv(db)
      ensures o == if !OwnActiveFolder(old(db).folders, user, id) then Fail(NotFound)
                   else if parent == Some(id) then Fail(InvalidMove)
                   else if !ParentFits(old(db), user, old(db).folders[id].kind, parent) then Fail(NotFound)
                   else if parent.Some? && Under(old(db).folders, id, parent.value) then Fail(InvalidMove)
                   else if FolderNameTaken(old(db).folders, user, old(db).folders[id].kind, parent,
                     old(db).folders[id].name, Some(id))
                        then Fail(NameConflict) else Ok
      ensures o != Ok ==> db == old(db)
      ensures o == Ok ==>
        && db.folders.Keys == old(db).folders.Keys && db.folders[id] == old(db).folders[id].(parent := parent)
        && (forall f :: f in db.folders && f != id ==> db.folders[f] == old(db).folders[f])
        && db.items == old(db).items && db.exports == old(db).exports && db.events == old(db).events
      ensures o == Ok ==>
        Relocated(old(db).folders, db.folders, id, PathOf(old(db).folders, parent) + [old(db).folders[id].name])
    {
      var kind := RequireActiveFolder(db, user, id);
      if kind.None? { return Fail(NotFound); }
      var f := db.folders[id];
      if parent.Some? {
        if parent.value == id { return Fail(InvalidMove); }
        var fits := RequireActiveFolder(db, user, parent.value);
        if fits != kind { return Fail(NotFound); }
        var inside := InSubtree(db, user, id, parent.value);
        if inside { return Fail(InvalidMove); }
      }
      var taken := FolderNameInUse(db, user, f.kind, parent, f.name, Some(id));
      if taken { return Fail(NameConflict); }
      MoveRelocates(db, id, parent);
      db := SetFolder(db, id, f.(parent := parent));
      return Ok;
    }

    // --- items ---

    method CreateItem(r: Ref, user: Id, folder: Option<Id>, name: string, blob: string) returns (o: Outcome)
      requires Inv(db)
      modifies this
      ensures Inv(db)
      ensures o == if !ParentFits(old(db), user, r.kind, folder) then Fail(NotFound)
                   else if ItemNameTaken(old(db).items, r.kind, user, folder, name, None) then Fail(NameConflict)
                   else if r in old(db).items then Fail(Constraint) else Ok
      ensures db == if o != Ok then old(db)
                    else old(db).(items := old(db).items[r := Item(user, folder, name, blob, false, None)])
    {
      var fits := ValidateFolder(db, user, r.kind, folder);
      if !fits { return Fail(NotFound); }
      var taken := ItemNameInUse(db, r.kind, user, folder, name, None);
      if taken { return Fail(NameConflict); }
      if r in db.items { return Fail(Constraint); }
      FreeForAll(db.items, r.kind, user, folder, name, Some(r));
      PlaceItemKeeps(db, r, Item(user, folder, name, blob, false, None));
      db := SetItem(db, r, Item(user, folder, name, blob, false, None));
      return Ok;
    }

    method RenameItem(r: Ref, user: Id, name: string) returns (o: Outcome)
      requires Inv(db)
      modifies this
      ensures Inv(db)
      ensures o == if !OwnActiveItem(old(db), user, r) then Fail(NotFound)
                   else if ItemNameTaken(old(db).items, r.kind, user, old(db).items[r].folder, name, Some(r))
                     then Fail(NameConflict)
                   else Ok
      ensures o != Ok ==> db == old(db)
      ensures o == Ok ==> db == old(db).(items := old(db).items[r := old(db).items[r].(name := name)])
    {
      if r !in db.items || db.items[r].user != user || db.items[r].deleted { return Fail(NotFound); }
      var taken := ItemNameInUse(db, r.kind, user, db.items[r].folder, name, Some(r));
      if taken { return Fail(NameConflict); }
      ActiveFiled(db, r);
      PlaceItemKeeps(db, r, db.items[r].(name := name));
      db := SetItem(db, r, db.items[r].(name := name));
      return Ok;
    }

    method MoveItem(r: Ref, user: Id, folder: Option<Id>) returns (o: Outcome)
      requires Inv(db)
      modifies this
      ensures Inv(db)
      ensures o == if !ParentFits(old(db), user, r.kind, folder) || !OwnActiveItem(old(db), user, r) then Fail(NotFound)
                   else if ItemNameTaken(old(db).items, r.kind, user, folder, old(db).items[r].name, Some(r))
                     then Fail(NameConflict)
                   else Ok
      ensures o != Ok ==> db == old(db)
      ensures o == Ok ==> db == old(db).(items := old(db).items[r := old(db).items[r].(folder := folder)])
    {
      var fits := ValidateFolder(db, user, r.kind, folder);
      if !fits { return Fail(NotFound); }
      if r !in db.items || db.items[r].user != user || db.items[r].deleted { return Fail(NotFound); }
      var taken := ItemNameInUse(db, r.kind, user, folder, db.items[r].name, Some(r));
      if taken { return Fail(NameConflict); }
      ActiveFiled(db, r);
      PlaceItemKeeps(db, r, db.items[r].(folder := folder));
      db := SetItem(db, r, db.items[r].(folder := folder));
      return Ok;
    }

    method CreateExport(i: Id, user: Id, document: Option<Id>, name: string, blob: string) returns (o: Outcome)
      requires Inv(db)
      modifies this
      ensures Inv(db)
      ensures o == if i in old(db).exports || (document.Some? && Ref(Document, document.value) !in old(db).items)
                   then Fail(Constraint) else Ok
      ensures db == if o != Ok then old(db)
                    else old(db).(exports := old(db).exports[i := Export(user, document, name, blob, false, None)])
    {
      if i in db.exports || (document.Some? && Ref(Document, document.value) !in db.items) { return Fail(Constraint); }
      SetExportKeeps(db, i, Export(user, document, name, blob, false, None));
      db := SetExport(db, i, Export(user, document, name, blob, false, None));
      return Ok;
    }

    // --- trash ---

    /** Soft-deletes a node, and for a folder its whole active subtree, as one new event. */
    method TrashNode(user: Id, node: Root, now: int) returns (o: Outcome, e: Id)
      requires Inv(db)
      modifies this
      ensures Inv(db)
      ensures o == if OwnActiveNode(old(db), user, node) then Ok else Fail(NotFound)
      ensures o != Ok ==> db == old(db)
      ensures o == Ok ==> e !in old(db).events && db == Trash(old(db), e, now, node)
      ensures o == Ok ==>
        && Carries(old(db), db, e, node)
        && db.events == old(db).events[e := Event(user, node, TitleOf(old(db), node), now)]
    {
      e := NewId(db.events.Keys);
      if OwnActiveNode(db, user, node) { TrashKeeps(db, e, now, node); }
      match node {
        case ItemRoot(r) =>
          if r !in db.items || db.items[r].user != user || db.items[r].deleted { return Fail(NotFound), e; }
          db := TrashItem(db, e, now, r);
        case ExportRoot(i) =>
          if i !in db.exports || db.exports[i].user != user || db.exports[i].deleted { return Fail(NotFound), e; }
          db := TrashExport(db, e, now, i);
        case FolderRoot(f) =>
          if f !in db.folders || db.folders[f].user != user || db.folders[f].deleted { return Fail(NotFound), e; }
          var subtree := SubtreeIds(db, user, None, f);
          var members := set id | id in subtree;
          assert members == Subtree(db.folders, None, f);
          db := TrashTree(db, e, now, f, members);
      }
      return Ok, e;
    }

    /** Restores a trashed node to where it was. If any name collision is left open the whole restore
        is undone and the collisions are reported; otherwise it is committed. */
    method RestoreNode(user: Id, node: Root, res: map<Id, Resolution>, now: int)
      returns (o: Outcome, conflicts: seq<Conflict>)
      requires Inv(db)
      modifies this
      ensures Inv(db)
      ensures o == if OwnTrashedNode(old(db), user, node) then Ok else Fail(NotFound)
      ensures o != Ok || conflicts != [] ==> db == old(db)
      ensures o == Ok && conflicts == [] ==> Restored(old(db), db, user, node, res, now)
      ensures forall e :: e in db.events && e !in old(db).events ==> db.events[e].created == now
      ensures o == Ok ==> Caused(old(db), user, node, res, now, conflicts) && OncePerItem(conflicts)
      ensures o == Ok && AllResolved(old(db), user, node, res, now) ==> conflicts == []
      ensures o == Ok && Determined(old(db), user, node, res, now) ==>
        Members(conflicts) == OpenConflicts(old(db), user, node, res, now)
    {
      var st := new RestoreState(db, user, res, now);
      match node {
        case ExportRoot(i) =>
          o := st.RestoreExport(i);
        case ItemRoot(r) =>
          o := st.RestoreItem(r);
        case FolderRoot(f) =>
          o := st.RestoreFolder(f);
      }
      conflicts := st.conflicts;
      if o == Ok { ReportsCaused(db, user, node, res, now, st.tx, conflicts); }
      if o != Ok || conflicts != [] {
        return;
      }
      db := st.tx;
    }

    // --- permanent deletion ---

    /** `purgeEvents`: one transaction, event by event. The outcome and the set of rows whose blobs are
        handed back depend only on which events are listed, not on their order. */
    method PurgeEvents(events: seq<Id>) returns (paths: seq<string>, ghost rows: seq<Row>)
      requires Inv(db)
      modifies this
      ensures Inv(db) && db == Purged(old(db), Members(events))
      ensures Lists(old(db), Gone(old(db), Members(events)), rows, paths)
    {
      ghost var a := db;
      var tx := db;
      paths, rows := [], [];
      NothingPurged(db);
      AllRows(events);
      for k := 0 to |events|
        invariant db == a && tx == Purged(a, Members(events[..k]))
        invariant Lists(a, Gone(a, Members(events[..k])), rows, paths)
      {
        var to, more, others := PurgeEvent(tx, events[k]);
        MembersGrow(events, k);
        PurgeOneMore(a, Members(events[..k]), events[k]);
        GoneOneMore(a, Members(events[..k]), events[k]);
        forall row: Row | HasRow(tx, row) ensures HasRow(a, row) && BlobOf(a, row) == BlobOf(tx, row) {
          GoneHasRow(a, Members(events[..k]), row);
        }
        ListsAppend(a, tx, Gone(a, Members(events[..k])), Gone(tx, {events[k]}), rows, others, paths, more);
        tx, paths, rows := to, paths + more, rows + others;
      }
      PurgeKeeps(a, Members(events));
      db := tx;
    }

    /** Permanently removes one event of the user. */
    method HardDeleteEvent(user: Id, e: Id) returns (o: Outcome, paths: seq<string>, ghost rows: seq<Row>)
      requires Inv(db)
      modifies this
      ensures Inv(db)
      ensures o == if e in old(db).events && old(db).events[e].user == user then Ok else Fail(NotFound)
      ensures o != Ok ==> db == old(db) && paths == []
      ensures o == Ok ==> db == Purged(old(db), {e}) && Lists(old(db), Gone(old(db), {e}), rows, paths)
    {
      paths, rows := [], [];
      if e !in db.events || db.events[e].user != user { return Fail(NotFound), paths, rows; }
      assert Members([e]) == {e};
      paths, rows := PurgeEvents([e]);
      o := Ok;
    }

    /** Permanently removes every event of the user. */
    method EmptyTrash(user: Id) returns (paths: seq<string>, ghost rows: seq<Row>)
      requires Inv(db)
      modifies this
      ensures Inv(db)
      ensures var E := EventsOf(old(db), user);
        db == Purged(old(db), E) && Lists(old(db), Gone(old(db), E), rows, paths)
      ensures forall e :: e in old(db).events ==> (e in db.events <==> old(db).events[e].user != user)
      ensures forall f :: f in old(db).folders ==>
        (f in db.folders <==> old(db).folders[f].event.None? || old(db).folders[f].user != user)
      ensures forall r :: r in old(db).items ==>
        (r in db.items <==> old(db).items[r].event.None? || old(db).items[r].user != user)
    {
      var events := Rows(set e | e in db.events && db.events[e].user == user);
      assert Members(events) == EventsOf(db, user);
      OwnersAgree(db);
      paths, rows := PurgeEvents(events);
    }

    method ReadExpired(cutoff: int) returns (events: seq<Id>)
      ensures Members(events) == Expired(db, cutoff)
      ensures forall e :: e in events <==> e in db.events && db.events[e].created < cutoff
    {
      events := Rows(set e | e in db.events && db.events[e].created < cutoff);
    }

    /** Permanently removes every event created before the cutoff, whoever owns it. */
    method PurgeExpired(cutoff: int) returns (paths: seq<string>, ghost rows: seq<Row>)
      requires Inv(db)
      modifies this
      ensures Inv(db)
      ensures var E := Expired(old(db), cutoff);
        db == Purged(old(db), E) && Lists(old(db), Gone(old(db), E), rows, paths)
      ensures AgedOut(old(db), old(db), db, cutoff)
    {
      ExpiredAgedOut(db, db, cutoff);
      var events := ReadExpired(cutoff);
      paths, rows := PurgeEvents(events);
    }

    /** The reconciler's reference set: every blob some row points at, in whatever state the row is. */
    method AllReferencedBlobPaths() returns (refs: set<string>)
      ensures refs == References(db)
    {
      refs := set r | r in db.items && r.kind == Signature :: db.items[r].blob;
      refs := refs + set r | r in db.items && r.kind == Document :: db.items[r].blob;
      refs := refs + set i | i in db.exports :: db.exports[i].blob;
    }
  }
}
