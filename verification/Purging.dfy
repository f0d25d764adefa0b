/** Permanent deletion: the statements of a purge, and the closed form they add up to. */
module Purging {
  import opened Base
  import opened Tables
  import opened Tree
  import opened Untrashing

  datatype Row = ItemRow(item: Ref) | ExportRow(exportId: Id)

  ghost predicate InEvents(e: Option<Id>, E: set<Id>) {
    e.Some? && e.value in E
  }

  /** The export belongs to a document that the events `E` carry. */
  ghost predicate RidesWith(db: Db, i: Id, E: set<Id>)
    requires i in db.exports
  {
    && db.exports[i].document.Some?
    && Ref(Document, db.exports[i].document.value) in db.items
    && InEvents(db.items[Ref(Document, db.exports[i].document.value)].event, E)
  }

  /** A reference to a container after the folders of `E` are gone: root, if its target was one of them. */
  ghost function Cut(fs: Folders, E: set<Id>, o: Option<Id>): Option<Id> {
    if InEvents(EventOf(fs, o), E) then None else o
  }

  ghost function PurgedFolders(fs: Folders, E: set<Id>): Folders {
    map f | f in fs && !InEvents(fs[f].event, E) :: fs[f].(parent := Cut(fs, E, fs[f].parent))
  }

  ghost function PurgedItems(items: Items, fs: Folders, E: set<Id>): Items {
    map r | r in items && !InEvents(items[r].event, E) :: items[r].(folder := Cut(fs, E, items[r].folder))
  }

  /** Everything the events `E` carry is gone, with the exports of the documents among it; what is left
      is as it was, floating to the root where its folder is gone. */
  ghost function Purged(db: Db, E: set<Id>): Db {
    Db(PurgedFolders(db.folders, E),
       PurgedItems(db.items, db.folders, E),
       map i | i in db.exports && !InEvents(db.exports[i].event, E) && !RidesWith(db, i, E) :: db.exports[i],
       db.events - E)
  }

  /** The content rows a purge of `E` deletes. */
  ghost function Gone(db: Db, E: set<Id>): set<Row> {
    (set r | r in db.items && InEvents(db.items[r].event, E) :: ItemRow(r))
    + (set i | i in db.exports && (InEvents(db.exports[i].event, E) || RidesWith(db, i, E)) :: ExportRow(i))
  }

  // --- the statements ---

  function DeleteExports(db: Db, ids: set<Id>): Db {
    db.(exports := db.exports - ids)
  }

  /** `DELETE FROM documents/signatures`, with ON DELETE SET NULL on `exports.document_id`. */
  function DeleteItems(db: Db, refs: set<Ref>): Db {
    db.(items := db.items - refs,
        exports := map i | i in db.exports ::
          if db.exports[i].document.Some? && Ref(Document, db.exports[i].document.value) in refs
          then db.exports[i].(document := None) else db.exports[i])
  }

  function FoldersOf(db: Db, e: Id): set<Id> {
    set f | f in db.folders && db.folders[f].event == Some(e)
  }

  function ItemsOf(db: Db, e: Id): set<Ref> {
    set r | r in db.items && db.items[r].event == Some(e)
  }

  function ExportsOf(db: Db, e: Id): set<Id> {
    set i | i in db.exports && db.exports[i].event == Some(e)
  }

  function ExportsOfDocument(db: Db, d: Id): set<Id> {
    set i | i in db.exports && db.exports[i].document == Some(d)
  }

  /** What the statements for one event leave, after the exports of its documents are deleted. */
  function DropRows(db: Db, e: Id): Db {
    var noItems := DeleteItems(db, ItemsOf(db, e));
    var noExports := DeleteExports(noItems, ExportsOf(noItems, e));
    var noFolders := DeleteFolders(noExports, FoldersOf(noExports, e));
    DeleteEvent(noFolders, e)
  }

  lemma DeletedFolders(db: Db, e: Id)
    ensures DeleteFolders(db, FoldersOf(db, e)).folders == PurgedFolders(db.folders, {e})
  {
    forall o: Option<Id> ensures Cut(db.folders, {e}, o) == if o.Some? && o.value in FoldersOf(db, e) then None else o {
    }
  }

  lemma DeletedFiling(db: Db, mid: Db, e: Id)
    requires mid.folders == db.folders && mid.items == db.items - ItemsOf(db, e)
    ensures DeleteFolders(mid, FoldersOf(mid, e)).items == PurgedItems(db.items, db.folders, {e})
  {
    forall o: Option<Id>
      ensures Cut(db.folders, {e}, o) == if o.Some? && o.value in FoldersOf(mid, e) then None else o
    {
    }
  }

  /** Dropping an event none of whose rows is left touches no row. */
  lemma DeletedEvent(db: Db, e: Id)
    requires !Referenced(db, e)
    ensures DeleteEvent(db, e) == db.(events := db.events - {e})
  {
    var to := DeleteEvent(db, e);
    assert to.folders == db.folders;
    assert to.items == db.items;
    assert to.exports == db.exports;
  }

  lemma DroppedFiling(mid: Db, e: Id)
    ensures DropRows(mid, e).folders == PurgedFolders(mid.folders, {e})
    ensures DropRows(mid, e).items == PurgedItems(mid.items, mid.folders, {e})
  {
    var noItems := DeleteItems(mid, ItemsOf(mid, e));
    var noExports := DeleteExports(noItems, ExportsOf(noItems, e));
    var noFolders := DeleteFolders(noExports, FoldersOf(noExports, e));
    DeletedFolders(noExports, e);
    DeletedFiling(mid, noExports, e);
    DeletedEvent(noFolders, e);
  }

  lemma DroppedExports(db: Db, mid: Db, e: Id)
    requires mid == DeleteExports(db, set i | i in db.exports && RidesWith(db, i, {e}))
    ensures DropRows(mid, e).exports == Purged(db, {e}).exports
  {
    var noItems := DeleteItems(mid, ItemsOf(mid, e));
    assert noItems.exports == mid.exports by {
      forall i | i in mid.exports ensures !RidesWith(db, i, {e}) {
      }
    }
    var noExports := DeleteExports(noItems, ExportsOf(noItems, e));
    assert noExports.exports == Purged(db, {e}).exports;
    assert DropRows(mid, e).exports == noExports.exports;
  }

  /** The statements for one event, run in their order, are the closed form for that event. */
  lemma DropRowsPurges(db: Db, mid: Db, e: Id)
    requires mid == DeleteExports(db, set i | i in db.exports && RidesWith(db, i, {e}))
    ensures DropRows(mid, e) == Purged(db, {e})
  {
    DroppedFiling(mid, e);
    DroppedExports(db, mid, e);
    assert DropRows(mid, e).events == Purged(db, {e}).events;
  }

  lemma CutTwice(fs: Folders, E: set<Id>, e: Id, o: Option<Id>)
    ensures Cut(PurgedFolders(fs, E), {e}, Cut(fs, E, o)) == Cut(fs, E + {e}, o)
  {
  }

  lemma FilingOneMore(items: Items, fs: Folders, E: set<Id>, e: Id)
    ensures PurgedFolders(PurgedFolders(fs, E), {e}) == PurgedFolders(fs, E + {e})
    ensures PurgedItems(PurgedItems(items, fs, E), PurgedFolders(fs, E), {e}) == PurgedItems(items, fs, E + {e})
  {
    forall o ensures Cut(PurgedFolders(fs, E), {e}, Cut(fs, E, o)) == Cut(fs, E + {e}, o) {
      CutTwice(fs, E, e, o);
    }
    forall v: Option<Id> ensures InEvents(v, E + {e}) <==> InEvents(v, E) || InEvents(v, {e}) {
    }
  }

  lemma RidesOneMore(db: Db, E: set<Id>, e: Id, i: Id)
    requires i in Purged(db, E).exports
    ensures i in db.exports && !RidesWith(db, i, E)
    ensures RidesWith(Purged(db, E), i, {e}) <==> RidesWith(db, i, E + {e})
  {
  }

  lemma ExportsOneMore(db: Db, E: set<Id>, e: Id)
    ensures Purged(Purged(db, E), {e}).exports == Purged(db, E + {e}).exports
  {
    var mid := Purged(db, E);
    forall i | i in mid.exports
      ensures !RidesWith(db, i, E) && (RidesWith(mid, i, {e}) <==> RidesWith(db, i, E + {e}))
    {
      RidesOneMore(db, E, e, i);
    }
  }

  lemma GoneOneMore(db: Db, E: set<Id>, e: Id)
    ensures Gone(db, E) + Gone(Purged(db, E), {e}) == Gone(db, E + {e})
    ensures Gone(db, E) !! Gone(Purged(db, E), {e})
  {
    var mid := Purged(db, E);
    forall i | i in mid.exports
      ensures !RidesWith(db, i, E) && (RidesWith(mid, i, {e}) <==> RidesWith(db, i, E + {e}))
    {
      RidesOneMore(db, E, e, i);
    }
  }

  /** Purging one more event after some others is purging them all: the order does not matter. */
  lemma PurgeOneMore(db: Db, E: set<Id>, e: Id)
    ensures Purged(Purged(db, E), {e}) == Purged(db, E + {e})
  {
    FilingOneMore(db.items, db.folders, E, e);
    ExportsOneMore(db, E, e);
    assert Purged(Purged(db, E), {e}).events == Purged(db, E + {e}).events;
  }

  // --- what a purge keeps ---

  lemma PurgedGrounded(db: Db, E: set<Id>)
    requires Inv(db)
    ensures Grounded(Purged(db, E).folders)
  {
    var to := Purged(db, E);
    DepthsRank(db.folders);
    forall f | f in to.folders && to.folders[f].parent.Some? ensures to.folders[f].parent.value in to.folders {
      ParentPath(db.folders, f);
    }
    RankGrounds(to.folders, Depths(db.folders));
  }

  lemma PurgedFoldersKeep(db: Db, E: set<Id>)
    requires Inv(db)
    ensures FoldersOk(Purged(db, E)) && FolderNames(Purged(db, E).folders)
  {
    var to := Purged(db, E);
    forall f | f in to.folders ensures FolderOk(to, f) {
      assert FolderOk(db, f);
      ParentPath(db.folders, f);
    }
    forall f, g | f in to.folders && g in to.folders && SameSlot(to.folders[f], to.folders[g]) ensures f == g {
      assert FolderOk(db, f) && FolderOk(db, g);
      var cut := db.folders[f].parent != db.folders[g].parent;
      assert cut || SameSlot(db.folders[f], db.folders[g]);
    }
  }

  lemma PurgedItemsKeep(db: Db, E: set<Id>)
    requires Inv(db)
    ensures ItemsOk(Purged(db, E)) && ItemNames(Purged(db, E).items) && ExportsOk(Purged(db, E))
  {
    var to := Purged(db, E);
    forall r | r in to.items ensures ItemOk(to, r) {
      assert ItemOk(db, r);
    }
    forall r, s | r in to.items && s in to.items && SameItemSlot(to.items, r, s) ensures r == s {
      assert ItemOk(db, r) && ItemOk(db, s);
      var cut := db.items[r].folder != db.items[s].folder;
      assert cut || SameItemSlot(db.items, r, s);
    }
    forall i | i in to.exports ensures ExportOk(to, i) {
      assert ExportOk(db, i);
    }
  }

  /** Purging any set of events, current or stale, keeps the invariant. */
  lemma PurgeKeeps(db: Db, E: set<Id>)
    requires Inv(db)
    ensures Inv(Purged(db, E))
  {
    PurgedGrounded(db, E);
    PurgedFoldersKeep(db, E);
    PurgedItemsKeep(db, E);
  }

  /** An event aimed at something else than an export carries no export. */
  lemma NoExportBeside(db: Db, e: Id, root: Root)
    requires Inv(db) && e in db.events && db.events[e].root == root && !root.ExportRoot?
    ensures forall i :: i in db.exports ==> db.exports[i].event != Some(e)
  {
    forall i | i in db.exports ensures db.exports[i].event != Some(e) {
      assert ExportOk(db, i);
    }
  }

  /**
   * An event that is not purged keeps its members, with one exception: the event of a single export, when that
   * export's document is carried by a purged event. It is left empty.
   */
  lemma EmptiedExactly(db: Db, E: set<Id>, e: Id)
    requires Inv(db) && e in db.events && e !in E && Referenced(db, e)
    ensures !Referenced(Purged(db, E), e) <==>
      exists i :: i in db.exports && db.exports[i].event == Some(e) && RidesWith(db, i, E)
  {
    var to := Purged(db, E);
    if f :| f in db.folders && db.folders[f].event == Some(e) {
      assert FolderOk(db, f) && to.folders[f].event == Some(e);
      NoExportBeside(db, e, db.events[e].root);
    } else if r :| r in db.items && db.items[r].event == Some(e) {
      assert ItemOk(db, r) && to.items[r].event == Some(e);
      NoExportBeside(db, e, db.events[e].root);
    } else {
      var i :| i in db.exports && db.exports[i].event == Some(e);
      forall j | j in db.exports && db.exports[j].event == Some(e) ensures j == i {
        assert ExportOk(db, i) && ExportOk(db, j);
      }
      assert !RidesWith(db, i, E) ==> to.exports[i].event == Some(e);
    }
  }

  /** The exception occurs: an export was trashed by itself, and the event of its document is purged. */
  lemma EmptiedOnce() returns (db: Db)
    ensures Inv(db) && 1 in db.events && Referenced(db, 1)
    ensures 1 in Purged(db, {0}).events && !Referenced(Purged(db, {0}), 1)
  {
    var doc := Ref(Document, 0);
    db := Db(
      map[],
      map[doc := Item(0, None, "contract", "0/0.enc", true, Some(0))],
      map[0 := Export(0, Some(0), "contract (signed)", "0/1.enc", true, Some(1))],
      map[0 := Event(0, ItemRoot(doc), "contract", 0), 1 := Event(0, ExportRoot(0), "contract (signed)", 0)]);
    assert Labels(db.folders, map[]);
    assert RidesWith(db, 0, {0});
    EmptiedExactly(db, {0}, 1);
  }

  /** Active folders and items outlive a purge of any list of event identifiers, however old the list,
      filed exactly where they were; an active export does unless its document is carried by the events. */
  lemma ActiveOutlives(db: Db, E: set<Id>)
    requires Inv(db)
    ensures forall f :: f in db.folders && !db.folders[f].deleted ==>
      f in Purged(db, E).folders && Purged(db, E).folders[f] == db.folders[f]
    ensures forall r :: r in db.items && !db.items[r].deleted ==>
      r in Purged(db, E).items && Purged(db, E).items[r] == db.items[r]
    ensures forall i :: i in db.exports && !db.exports[i].deleted && !RidesWith(db, i, E) ==>
      i in Purged(db, E).exports && Purged(db, E).exports[i] == db.exports[i]
  {
    forall f | f in db.folders && !db.folders[f].deleted
      ensures f in Purged(db, E).folders && Purged(db, E).folders[f] == db.folders[f]
    {
      assert FolderOk(db, f);
    }
    forall r | r in db.items && !db.items[r].deleted
      ensures r in Purged(db, E).items && Purged(db, E).items[r] == db.items[r]
    {
      assert ItemOk(db, r);
    }
    forall i | i in db.exports && !db.exports[i].deleted ensures db.exports[i].event.None? {
      assert ExportOk(db, i);
    }
  }

  // --- the blob paths a purge hands back ---

  ghost predicate HasRow(db: Db, row: Row) {
    match row
    case ItemRow(r) => r in db.items
    case ExportRow(i) => i in db.exports
  }

  ghost function BlobOf(db: Db, row: Row): string
    requires HasRow(db, row)
  {
    match row
    case ItemRow(r) => db.items[r].blob
    case ExportRow(i) => db.exports[i].blob
  }

  /** `paths` names the blob of every row of `s` once: `rows` pairs them up. */
  ghost predicate Lists(db: Db, s: set<Row>, rows: seq<Row>, paths: seq<string>) {
    && Distinct(rows) && Members(rows) == s && |paths| == |rows|
    && forall k :: 0 <= k < |rows| ==> HasRow(db, rows[k]) && paths[k] == BlobOf(db, rows[k])
  }

  /** The blob paths some content row, active or trashed, points at. */
  ghost function References(db: Db): set<string> {
    (set r | r in db.items :: db.items[r].blob) + (set i | i in db.exports :: db.exports[i].blob)
  }

  /** Every blob belongs to one row, as uploads arrange it by naming the blob after the row. */
  ghost predicate BlobsApart(db: Db) {
    forall x, y :: HasRow(db, x) && HasRow(db, y) && BlobOf(db, x) == BlobOf(db, y) ==> x == y
  }

  lemma ListsAppend(db: Db, mid: Db, s: set<Row>, t: set<Row>, rows: seq<Row>, more: seq<Row>, paths: seq<string>,
      others: seq<string>)
    requires Lists(db, s, rows, paths) && Lists(mid, t, more, others) && s !! t
    requires forall row :: row in t && HasRow(mid, row) ==> HasRow(db, row) && BlobOf(db, row) == BlobOf(mid, row)
    ensures Lists(db, s + t, rows + more, paths + others)
  {
    forall row | row in more ensures row !in rows {
      assert row in Members(more) && (row in rows ==> row in Members(rows));
    }
    DistinctAppend(rows, more);
    assert Members(rows + more) == s + t;
    forall k | 0 <= k < |rows + more|
      ensures HasRow(db, (rows + more)[k]) && (paths + others)[k] == BlobOf(db, (rows + more)[k])
    {
      if k >= |rows| { assert more[k - |rows|] in Members(more); }
    }
  }

  lemma ListsWithout(db: Db, s: set<Row>, rows: seq<Row>, paths: seq<string>, j: nat)
    requires Lists(db, s, rows, paths) && j < |rows|
    ensures Lists(db, s - {rows[j]}, DropAt(rows, j), DropAt(paths, j))
    ensures multiset(paths) == multiset(DropAt(paths, j)) + multiset{BlobOf(db, rows[j])}
  {
    DropAtMembers(rows, j);
    DropAtMultiset(paths, j);
  }

  /** The order in which events, rows and blobs are gone through makes no difference to what is handed back. */
  lemma {:induction false} OrderIrrelevant(db: Db, s: set<Row>, rows: seq<Row>, paths: seq<string>, others: seq<Row>,
      more: seq<string>)
    requires Lists(db, s, rows, paths) && Lists(db, s, others, more)
    ensures multiset(paths) == multiset(more)
    decreases |rows|
  {
    if rows == [] {
      NoMembers(rows);
      NoMembers(others);
    } else {
      assert rows[0] in Members(rows) && rows[0] in Members(others);
      var j :| 0 <= j < |others| && others[j] == rows[0];
      ListsWithout(db, s, rows, paths, 0);
      ListsWithout(db, s, others, more, j);
      OrderIrrelevant(db, s - {rows[0]}, DropAt(rows, 0), DropAt(paths, 0), DropAt(others, j), DropAt(more, j));
    }
  }

  lemma GoneHasRow(db: Db, E: set<Id>, row: Row)
    ensures row in Gone(db, E) <==> HasRow(db, row) && !HasRow(Purged(db, E), row)
    ensures HasRow(Purged(db, E), row) ==> HasRow(db, row) && BlobOf(db, row) == BlobOf(Purged(db, E), row)
  {
  }

  lemma RowOf(db: Db, p: string)
    ensures p in References(db) <==> exists row :: HasRow(db, row) && BlobOf(db, row) == p
  {
    if p in References(db) {
      if r :| r in db.items && db.items[r].blob == p {
        assert HasRow(db, ItemRow(r)) && BlobOf(db, ItemRow(r)) == p;
      } else {
        var i :| i in db.exports && db.exports[i].blob == p;
        assert HasRow(db, ExportRow(i)) && BlobOf(db, ExportRow(i)) == p;
      }
    }
    if row :| HasRow(db, row) && BlobOf(db, row) == p {
      match row
      case ItemRow(r) => assert db.items[r].blob == p;
      case ExportRow(i) => assert db.exports[i].blob == p;
    }
  }

  /** The paths handed back are exactly those referenced before the purge and not after it. */
  lemma FreedPaths(db: Db, E: set<Id>, rows: seq<Row>, paths: seq<string>)
    requires BlobsApart(db) && Lists(db, Gone(db, E), rows, paths)
    ensures Members(paths) == References(db) - References(Purged(db, E)) && Distinct(paths)
  {
    var to := Purged(db, E);
    forall row: Row ensures (row in Gone(db, E) <==> HasRow(db, row) && !HasRow(to, row))
      && (HasRow(to, row) ==> HasRow(db, row) && BlobOf(db, row) == BlobOf(to, row))
    {
      GoneHasRow(db, E, row);
    }
    forall p ensures p in References(db) <==> exists row :: HasRow(db, row) && BlobOf(db, row) == p {
      RowOf(db, p);
    }
    forall p ensures p in References(to) <==> exists row :: HasRow(to, row) && BlobOf(to, row) == p {
      RowOf(to, p);
    }
    forall p | p in Members(paths) ensures p in References(db) && p !in References(to) {
      var k :| 0 <= k < |paths| && paths[k] == p;
      assert rows[k] in Members(rows);
    }
    forall p | p in References(db) && p !in References(to) ensures p in Members(paths) {
      var row :| HasRow(db, row) && BlobOf(db, row) == p;
      assert row in Members(rows);
      var k :| 0 <= k < |rows| && rows[k] == row;
      assert paths[k] == p;
    }
    forall j, k | 0 <= j < k < |paths| ensures paths[j] != paths[k] {
      assert rows[j] != rows[k];
    }
  }

  // --- running the statements ---

  lemma NothingPurged(db: Db)
    ensures Purged(db, {}) == db && Gone(db, {}) == {} && Lists(db, {}, [], [])
  {
    var to := Purged(db, {});
    assert to.folders == db.folders;
    assert to.items == db.items;
    assert to.exports == db.exports;
  }

  function ItemRows(refs: set<Ref>): set<Row> {
    set r | r in refs :: ItemRow(r)
  }

  function ExportRows(ids: set<Id>): set<Row> {
    set i | i in ids :: ExportRow(i)
  }

  /** The exports of the given documents. */
  ghost function Riding(db: Db, docs: set<Ref>): set<Id> {
    set i | i in db.exports && db.exports[i].document.Some? && Ref(Document, db.exports[i].document.value) in docs
  }

  /** The blob of every given row, in whatever order the database yields them. */
  method Blobs(tx: Db, s: set<Row>) returns (paths: seq<string>, ghost rows: seq<Row>)
    requires forall row :: row in s ==> HasRow(tx, row)
    ensures Lists(tx, s, rows, paths)
  {
    var q := Base.Rows(s);
    paths, rows := [], q;
    for k := 0 to |q|
      invariant |paths| == k && forall j :: 0 <= j < k ==> paths[j] == BlobOf(tx, q[j])
    {
      assert q[k] in s;
      match q[k] {
        case ItemRow(r) => paths := paths + [tx.items[r].blob];
        case ExportRow(i) => paths := paths + [tx.exports[i].blob];
      }
    }
    forall k | 0 <= k < |q| ensures HasRow(tx, q[k]) { assert q[k] in s; }
  }

  /** The exports of each document in turn: their blobs are collected and their rows deleted. */
  method PurgeRiding(tx: Db, docs: seq<Ref>) returns (to: Db, paths: seq<string>, ghost rows: seq<Row>)
    requires Distinct(docs) && forall d :: d in docs ==> d.kind == Document
    ensures to == DeleteExports(tx, Riding(tx, Members(docs)))
    ensures Lists(tx, ExportRows(Riding(tx, Members(docs))), rows, paths)
  {
    to, paths, rows := tx, [], [];
    assert DeleteExports(tx, {}) == tx;
    for k := 0 to |docs|
      invariant to == DeleteExports(tx, Riding(tx, Members(docs[..k])))
      invariant Lists(tx, ExportRows(Riding(tx, Members(docs[..k]))), rows, paths)
    {
      ghost var done := Riding(tx, Members(docs[..k]));
      var ids := ExportsOfDocument(to, docs[k].id);
      MembersGrow(docs, k);
      assert docs[k] in docs && docs[k] == Ref(Document, docs[k].id);
      assert Riding(tx, Members(docs[..k + 1])) == done + ids;
      var more, others := Blobs(to, ExportRows(ids));
      ListsAppend(tx, to, ExportRows(done), ExportRows(ids), rows, others, paths, more);
      assert ExportRows(done + ids) == ExportRows(done) + ExportRows(ids);
      paths, rows, to := paths + more, rows + others, DeleteExports(to, ids);
    }
    assert docs[..|docs|] == docs;
  }

  /** One event: the exports of its documents, then its own rows, then the event. */
  method PurgeEvent(tx: Db, e: Id) returns (to: Db, paths: seq<string>, ghost rows: seq<Row>)
    ensures to == Purged(tx, {e}) && Lists(tx, Gone(tx, {e}), rows, paths)
  {
    var docs := Base.Rows(set r | r in tx.items && r.kind == Document && tx.items[r].event == Some(e));
    var mid, riding, ridden := PurgeRiding(tx, docs);
    ghost var hidden := Riding(tx, Members(docs));
    assert hidden == set i | i in tx.exports && RidesWith(tx, i, {e});
    var own, others := Blobs(mid, ItemRows(ItemsOf(mid, e)) + ExportRows(ExportsOf(mid, e)));
    ListsAppend(tx, mid, ExportRows(hidden), ItemRows(ItemsOf(mid, e)) + ExportRows(ExportsOf(mid, e)), ridden,
      others, riding, own);
    assert Gone(tx, {e}) == ExportRows(hidden) + (ItemRows(ItemsOf(mid, e)) + ExportRows(ExportsOf(mid, e)));
    DropRowsPurges(tx, mid, e);
    to, paths, rows := DropRows(mid, e), riding + own, ridden + others;
  }
}
